/** How surface-local graphics commands reach the one framebuffer (`services/rdp-core/src/egfx.rs`).

    The handler stores 16-bit origins and adds with saturation. `trueOrigins` remembers the 32-bit
    origins the server sent, and every contract below is stated at those true positions. */
module EgfxHandler {
  import opened Words
  import opened DirtyRects
  import opened Pixels
  import opened EgfxModel
  import opened EgfxPixels
  import EgfxSurface

  datatype Point = Point(x: U16, y: U16)

  function Width(r: Rect): U16 {
    SatSub(r.right, r.left)
  }

  function Height(r: Rect): U16 {
    SatSub(r.bottom, r.top)
  }

  // ---------------------------------------------------------------- commands with several targets

  ghost function FillAll(s: Screen, ox: nat, oy: nat, rects: seq<Rect>, r: Byte, g: Byte, b: Byte): (f: Screen)
    requires Valid(s)
    ensures Valid(f) && f.width == s.width && f.height == s.height
    decreases |rects|
  {
    if rects == [] then s
    else
      var before := FillAll(s, ox, oy, rects[..|rects| - 1], r, g, b);
      var last := rects[|rects| - 1];
      PaintedValid(before, Saturated(ox + last.left), Saturated(oy + last.top), Width(last), Height(last), r, g, b);
      Painted(before, Saturated(ox + last.left), Saturated(oy + last.top), Width(last), Height(last), r, g, b)
  }

  lemma FillAllSnoc(s: Screen, ox: nat, oy: nat, rects: seq<Rect>, r: Byte, g: Byte, b: Byte, k: nat)
    requires Valid(s) && k < |rects|
    ensures FillAll(s, ox, oy, rects[..k + 1], r, g, b)
         == Painted(FillAll(s, ox, oy, rects[..k], r, g, b), Saturated(ox + rects[k].left), Saturated(oy + rects[k].top),
                    Width(rects[k]), Height(rects[k]), r, g, b)
  {
    assert rects[..k + 1][..k] == rects[..k];
  }

  /** A multi-rectangle fill colours exactly the pixels of the rectangles, moved to the surface's true
      origin and cut at the screen; inverted rectangles and rectangles off the screen colour nothing. */
  lemma {:induction false} FillAllPixels(s: Screen, ox: nat, oy: nat, rects: seq<Rect>, r: Byte, g: Byte, b: Byte, i: nat)
    requires Valid(s) && i < |s.pixels|
    ensures 0 < s.width
    ensures var f := FillAll(s, ox, oy, rects, r, g, b);
            && |f.pixels| == |s.pixels|
            && f.pixels[i] == if Covered(rects, PixelX(s.width, i) - ox, PixelY(s.width, i) - oy)
                              then [r, g, b, 0xFF][Channel(s.width, i)] else s.pixels[i]
    decreases |rects|
  {
    OnScreenAt(s, i);
    if rects != [] {
      var init, last := rects[..|rects| - 1], rects[|rects| - 1];
      FillAllPixels(s, ox, oy, init, r, g, b, i);
      var before := FillAll(s, ox, oy, init, r, g, b);
      CoveredSnoc(rects, PixelX(s.width, i) - ox, PixelY(s.width, i) - oy);
      LastPainted(before, ox, oy, last, r, g, b, i);
      assert FillAll(s, ox, oy, rects, r, g, b) == Painted(before, Saturated(ox + last.left), Saturated(oy + last.top), Width(last), Height(last), r, g, b);
    }
  }

  lemma LastPainted(s: Screen, ox: nat, oy: nat, rect: Rect, r: Byte, g: Byte, b: Byte, i: nat)
    requires Valid(s) && i < |s.pixels| && 0 < s.width
    ensures 0 <= Channel(s.width, i) < BYTES_PER_PIXEL
    ensures var f := Painted(s, Saturated(ox + rect.left), Saturated(oy + rect.top), Width(rect), Height(rect), r, g, b);
            && |f.pixels| == |s.pixels|
            && f.pixels[i] == if Covers(rect, PixelX(s.width, i) - ox, PixelY(s.width, i) - oy) then [r, g, b, 0xFF][Channel(s.width, i)] else s.pixels[i]
  {
    OnScreenAt(s, i);
    PaintedIsFillAt(s, ox + rect.left, oy + rect.top, Width(rect), Height(rect), r, g, b);
  }

  lemma CoveredSnoc(rects: seq<Rect>, x: int, y: int)
    requires rects != []
    ensures Covered(rects, x, y) <==> Covered(rects[..|rects| - 1], x, y) || Covers(rects[|rects| - 1], x, y)
  {
    var init := rects[..|rects| - 1];
    if Covered(init, x, y) {
      var k :| 0 <= k < |init| && Covers(init[k], x, y);
      assert Covers(rects[k], x, y);
    }
    if Covered(rects, x, y) {
      var k :| 0 <= k < |rects| && Covers(rects[k], x, y);
      assert k < |init| ==> Covers(init[k], x, y);
    }
  }

  ghost function CopyAll(s: Screen, srcX: nat, srcY: nat, width: U16, height: U16, ox: nat, oy: nat, points: seq<Point>): (f: Screen)
    requires Valid(s)
    ensures Valid(f) && f.width == s.width && f.height == s.height
    decreases |points|
  {
    if points == [] then s
    else
      var before := CopyAll(s, srcX, srcY, width, height, ox, oy, points[..|points| - 1]);
      var last := points[|points| - 1];
      CopiedValid(before, Saturated(srcX), Saturated(srcY), width, height, Saturated(ox + last.x), Saturated(oy + last.y));
      Copied(before, Saturated(srcX), Saturated(srcY), width, height, Saturated(ox + last.x), Saturated(oy + last.y))
  }

  lemma CopyAllSnoc(s: Screen, srcX: nat, srcY: nat, width: U16, height: U16, ox: nat, oy: nat, points: seq<Point>, k: nat)
    requires Valid(s) && k < |points|
    ensures CopyAll(s, srcX, srcY, width, height, ox, oy, points[..k + 1])
         == Copied(CopyAll(s, srcX, srcY, width, height, ox, oy, points[..k]), Saturated(srcX), Saturated(srcY), width, height,
                   Saturated(ox + points[k].x), Saturated(oy + points[k].y))
  {
    assert points[..k + 1][..k] == points[..k];
  }

  /** Each target of a copy is the true copy of what the previous targets left on the screen. */
  lemma CopyAllPixels(s: Screen, srcX: nat, srcY: nat, width: U16, height: U16, ox: nat, oy: nat, points: seq<Point>)
    requires Valid(s) && points != []
    ensures var before := CopyAll(s, srcX, srcY, width, height, ox, oy, points[..|points| - 1]);
            var last := points[|points| - 1];
            (CopyAll(s, srcX, srcY, width, height, ox, oy, points).pixels
             == CopyAt(before, srcX, srcY, width, height, ox + last.x, oy + last.y))
  {
    var before := CopyAll(s, srcX, srcY, width, height, ox, oy, points[..|points| - 1]);
    var last := points[|points| - 1];
    CopiedIsCopyAt(before, srcX, srcY, width, height, ox + last.x, oy + last.y);
  }

  ghost function RestoreAll(s: Screen, slot: U16, ox: nat, oy: nat, points: seq<Point>): (f: Screen)
    requires Valid(s)
    ensures Valid(f) && f.cache == s.cache
    decreases |points|
  {
    if points == [] then s
    else
      var before := RestoreAll(s, slot, ox, oy, points[..|points| - 1]);
      var last := points[|points| - 1];
      RestoredValid(before, slot, Saturated(ox + last.x), Saturated(oy + last.y));
      Restored(before, slot, Saturated(ox + last.x), Saturated(oy + last.y)).0
  }

  lemma RestoreAllSnoc(s: Screen, slot: U16, ox: nat, oy: nat, points: seq<Point>, k: nat)
    requires Valid(s) && k < |points|
    ensures RestoreAll(s, slot, ox, oy, points[..k + 1])
         == Restored(RestoreAll(s, slot, ox, oy, points[..k]), slot, Saturated(ox + points[k].x), Saturated(oy + points[k].y)).0
  {
    assert points[..k + 1][..k] == points[..k];
  }

  /** Each target of a known slot shows the slot's tile at its true position; an unknown slot draws nothing. */
  lemma {:induction false} RestoreAllPixels(s: Screen, slot: U16, ox: nat, oy: nat, points: seq<Point>)
    requires Valid(s)
    ensures slot !in s.cache ==> RestoreAll(s, slot, ox, oy, points) == s
    ensures slot in s.cache && points != [] ==>
              var before := RestoreAll(s, slot, ox, oy, points[..|points| - 1]);
              var last := points[|points| - 1];
              var tile := s.cache[slot];
              RestoreAll(s, slot, ox, oy, points).pixels == PlaceAt(before, ox + last.x, oy + last.y, tile.width, tile.height, tile.pixels)
    decreases |points|
  {
    if points != [] {
      var last := points[|points| - 1];
      RestoreAllPixels(s, slot, ox, oy, points[..|points| - 1]);
      if slot in s.cache {
        RestoredIsPlaceAt(RestoreAll(s, slot, ox, oy, points[..|points| - 1]), slot, ox + last.x, oy + last.y);
      }
    }
  }

  // ---------------------------------------------------------------- the loops over targets

  method FillRects(surface: EgfxSurface.Surface, origin: (U16, U16), rects: seq<Rect>, red: Byte, green: Byte, blue: Byte,
                   ghost ox: nat, ghost oy: nat)
    requires surface.Ok() && origin == (Saturated(ox), Saturated(oy))
    modifies surface`dirty, surface.pixels
    ensures surface.Ok() && surface.State() == FillAll(old(surface.State()), ox, oy, rects, red, green, blue)
  {
    ghost var start := surface.State();
    for k := 0 to |rects|
      invariant surface.Ok() && surface.State() == FillAll(start, ox, oy, rects[..k], red, green, blue)
    {
      var r := rects[k];
      FillAllSnoc(start, ox, oy, rects, red, green, blue, k);
      SaturatedSum(ox, r.left);
      SaturatedSum(oy, r.top);
      surface.Fill(SatAdd(origin.0, r.left), SatAdd(origin.1, r.top), Width(r), Height(r), red, green, blue);
    }
    assert rects[..|rects|] == rects;
  }

  method CopyToPoints(surface: EgfxSurface.Surface, srcX: U16, srcY: U16, width: U16, height: U16, origin: (U16, U16), points: seq<Point>,
                      ghost trueX: nat, ghost trueY: nat, ghost ox: nat, ghost oy: nat)
    requires surface.Ok() && origin == (Saturated(ox), Saturated(oy))
    requires srcX == Saturated(trueX) && srcY == Saturated(trueY)
    modifies surface`dirty, surface`scratch, surface.pixels
    ensures surface.Ok() && surface.State() == CopyAll(old(surface.State()), trueX, trueY, width, height, ox, oy, points)
  {
    ghost var start := surface.State();
    for k := 0 to |points|
      invariant surface.Ok() && surface.State() == CopyAll(start, trueX, trueY, width, height, ox, oy, points[..k])
    {
      CopyAllSnoc(start, trueX, trueY, width, height, ox, oy, points, k);
      SaturatedSum(ox, points[k].x);
      SaturatedSum(oy, points[k].y);
      surface.Copy(srcX, srcY, width, height, SatAdd(origin.0, points[k].x), SatAdd(origin.1, points[k].y));
    }
    assert points[..|points|] == points;
  }

  method RestoreToPoints(surface: EgfxSurface.Surface, slot: U16, origin: (U16, U16), points: seq<Point>,
                         ghost ox: nat, ghost oy: nat) returns (known: bool)
    requires surface.Ok() && origin == (Saturated(ox), Saturated(oy))
    modifies surface`dirty, surface`scratch, surface.pixels
    ensures surface.Ok() && surface.State() == RestoreAll(old(surface.State()), slot, ox, oy, points)
    ensures known <==> points == [] || slot in old(surface.cache)
  {
    ghost var start := surface.State();
    known := true;
    for k := 0 to |points|
      invariant surface.Ok() && surface.State() == RestoreAll(start, slot, ox, oy, points[..k])
      invariant known <==> k == 0 || slot in start.cache
    {
      RestoreAllSnoc(start, slot, ox, oy, points, k);
      SaturatedSum(ox, points[k].x);
      SaturatedSum(oy, points[k].y);
      known := surface.CacheRestore(slot, SatAdd(origin.0, points[k].x), SatAdd(origin.1, points[k].y));
    }
    assert points[..|points|] == points;
  }

  // ---------------------------------------------------------------- the handler

  class Handler {
    const surface: EgfxSurface.Surface
    var origins: map<U16, (U16, U16)>
    var sizes: map<U16, (U16, U16)>
    var unusable: bool
    ghost var trueOrigins: map<U16, (U32, U32)>

    ghost predicate Ok()
      reads this, surface, surface.pixels
    {
      && surface.Ok()
      && origins.Keys == trueOrigins.Keys
      && forall id :: id in origins ==> origins[id] == (Saturated(trueOrigins[id].0), Saturated(trueOrigins[id].1))
    }

    constructor (surface: EgfxSurface.Surface)
      requires surface.Ok()
      ensures Ok() && this.surface == surface && trueOrigins == map[] && !unusable
    {
      this.surface := surface;
      origins, sizes, unusable := map[], map[], false;
      trueOrigins := map[];
    }

    method OnSurfaceCreated(id: U16, width: U16, height: U16)
      requires Ok()
      modifies `sizes
      ensures Ok() && sizes == old(sizes)[id := (width, height)]
    {
      sizes := sizes[id := (width, height)];
    }

    method OnSurfaceMapped(id: U16, originX: U32, originY: U32)
      requires Ok()
      modifies `origins, `trueOrigins
      ensures Ok() && trueOrigins == old(trueOrigins)[id := (originX, originY)]
    {
      origins := origins[id := (if originX <= U16_MAX then originX else U16_MAX, if originY <= U16_MAX then originY else U16_MAX)];
      trueOrigins := trueOrigins[id := (originX, originY)];
    }

    /** A scaled mapping is accepted only when it does not scale. */
    method OnSurfaceMappedScaled(id: U16, originX: U32, originY: U32, targetWidth: U32, targetHeight: U32)
      requires Ok()
      modifies `origins, `trueOrigins, `unusable
      ensures Ok()
      ensures if id in sizes && sizes[id] == (targetWidth, targetHeight)
              then trueOrigins == old(trueOrigins)[id := (originX, originY)] && unusable == old(unusable)
              else trueOrigins == old(trueOrigins) && unusable
    {
      var sameSize := id in sizes && sizes[id].0 == targetWidth && sizes[id].1 == targetHeight;
      if !sameSize {
        unusable := true;
        return;
      }
      OnSurfaceMapped(id, originX, originY);
    }

    method OnSurfaceDeleted(id: U16)
      requires Ok()
      modifies `origins, `sizes, `trueOrigins
      ensures Ok() && trueOrigins == old(trueOrigins) - {id} && sizes == old(sizes) - {id}
    {
      origins := origins - {id};
      sizes := sizes - {id};
      trueOrigins := trueOrigins - {id};
    }

    method OnResetGraphics(width: U32, height: U32)
      requires Ok()
      modifies `unusable, surface
      ensures Ok() && trueOrigins == old(trueOrigins)
      ensures surface.pixels == old(surface.pixels) || fresh(surface.pixels)
      ensures if width > U16_MAX || height > U16_MAX || Resized(old(surface.State()), width, height).1 == TooLarge
              then surface.State() == old(surface.State()) && unusable
              else surface.State() == Resized(old(surface.State()), width, height).0 && unusable == old(unusable)
    {
      if width > U16_MAX || height > U16_MAX {
        unusable := true;
        return;
      }
      var outcome := surface.TryResize(width, height);
      if outcome == TooLarge {
        unusable := true;
      }
    }

    method OriginOf(id: U16) returns (origin: Option<(U16, U16)>)
      requires Ok()
      ensures origin == if id in trueOrigins then Some((Saturated(trueOrigins[id].0), Saturated(trueOrigins[id].1))) else None
    {
      origin := if id in origins then Some(origins[id]) else None;
    }

    method OnBitmapUpdated(id: U16, left: U16, top: U16, width: U16, height: U16, data: seq<Byte>)
      requires Ok()
      modifies surface`dirty, surface.pixels
      ensures Ok()
      ensures surface.State() ==
                if data == [] || id !in trueOrigins then old(surface.State())
                else Written(old(surface.State()), Saturated(trueOrigins[id].0 + left), Saturated(trueOrigins[id].1 + top), width, height, data)
    {
      if data == [] {
        return;
      }
      var origin := OriginOf(id);
      if origin.None? {
        return;
      }
      SaturatedSum(trueOrigins[id].0, left);
      SaturatedSum(trueOrigins[id].1, top);
      surface.Write(SatAdd(origin.value.0, left), SatAdd(origin.value.1, top), width, height, data);
    }

    method OnSolidFill(id: U16, rects: seq<Rect>, red: Byte, green: Byte, blue: Byte)
      requires Ok()
      modifies surface`dirty, surface.pixels
      ensures Ok()
      ensures surface.State() ==
                if id !in trueOrigins then old(surface.State())
                else FillAll(old(surface.State()), trueOrigins[id].0, trueOrigins[id].1, rects, red, green, blue)
    {
      var origin := OriginOf(id);
      if origin.None? {
        return;
      }
      FillRects(surface, origin.value, rects, red, green, blue, trueOrigins[id].0, trueOrigins[id].1);
    }

    method OnSurfaceToSurface(source: U16, rect: Rect, destination: U16, points: seq<Point>)
      requires Ok()
      modifies surface`dirty, surface`scratch, surface.pixels
      ensures Ok()
      ensures surface.State() ==
                if source !in trueOrigins || destination !in trueOrigins then old(surface.State())
                else CopyAll(old(surface.State()), trueOrigins[source].0 + rect.left, trueOrigins[source].1 + rect.top,
                             Width(rect), Height(rect), trueOrigins[destination].0, trueOrigins[destination].1, points)
    {
      var from := OriginOf(source);
      if from.None? {
        return;
      }
      var to := OriginOf(destination);
      if to.None? {
        return;
      }
      CopyToPoints(surface, SatAdd(from.value.0, rect.left), SatAdd(from.value.1, rect.top), Width(rect), Height(rect), to.value, points,
                   trueOrigins[source].0 + rect.left, trueOrigins[source].1 + rect.top, trueOrigins[destination].0, trueOrigins[destination].1);
    }

    method OnSurfaceToCache(id: U16, slot: U16, rect: Rect)
      requires Ok()
      modifies `unusable, surface`cache, surface`cacheBytes
      ensures Ok()
      ensures if id !in trueOrigins then surface.State() == old(surface.State()) && unusable == old(unusable)
              else
                var (after, stored) := Stored(old(surface.State()), slot, Saturated(trueOrigins[id].0 + rect.left),
                                              Saturated(trueOrigins[id].1 + rect.top), Width(rect), Height(rect));
                surface.State() == after && unusable == (old(unusable) || !stored)
    {
      var origin := OriginOf(id);
      if origin.None? {
        return;
      }
      var stored := surface.CacheStore(slot, SatAdd(origin.value.0, rect.left), SatAdd(origin.value.1, rect.top), Width(rect), Height(rect));
      if !stored {
        unusable := true;
      }
    }

    method OnCacheToSurface(id: U16, slot: U16, points: seq<Point>) returns (known: bool)
      requires Ok()
      modifies surface`dirty, surface`scratch, surface.pixels
      ensures Ok()
      ensures surface.State() ==
                if id !in trueOrigins then old(surface.State())
                else RestoreAll(old(surface.State()), slot, trueOrigins[id].0, trueOrigins[id].1, points)
      ensures known <==> id !in trueOrigins || points == [] || slot in old(surface.cache)
    {
      var origin := OriginOf(id);
      known := true;
      if origin.None? {
        return;
      }
      known := RestoreToPoints(surface, slot, origin.value, points, trueOrigins[id].0, trueOrigins[id].1);
    }

    method OnEvictCacheEntry(slot: U16)
      requires Ok()
      modifies surface`cache, surface`cacheBytes
      ensures Ok() && surface.State() == Evicted(old(surface.State()), slot)
    {
      surface.CacheEvict(slot);
    }
  }
}
