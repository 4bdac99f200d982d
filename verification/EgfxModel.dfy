/** What each operation of the graphics-pipeline framebuffer does to the whole state
    (`services/rdp-core/src/egfx_surface.rs`), as functions on values. */
module EgfxModel {
  import opened Words
  import opened Raster
  import opened Pixels
  import opened DirtyRects

  const MAX_FRAMEBUFFER_PIXELS := 16_777_216
  const MAX_FRAMEBUFFER_BYTES := MAX_FRAMEBUFFER_PIXELS * BYTES_PER_PIXEL

  datatype Tile = Tile(width: U16, height: U16, pixels: seq<Byte>)

  datatype Screen = Screen(width: U16, height: U16, pixels: seq<Byte>,
                           cache: map<U16, Tile>, cacheBytes: nat, dirty: seq<Rect>)

  /** An origin and a size, as the operations and the frame headers carry them. */
  datatype Box = Box(x: U16, y: U16, width: U16, height: U16)

  const EMPTY_SCREEN := Screen(0, 0, [], map[], 0, [])

  // ---------------------------------------------------------------- sizes

  /** The byte length of a framebuffer, when it has pixels and respects the budget. */
  function CheckedLen(width: nat, height: nat): (r: Option<nat>)
    ensures r.Some? ==> r.value <= MAX_FRAMEBUFFER_BYTES
  {
    if width == 0 || height == 0 || width * height > MAX_FRAMEBUFFER_PIXELS then None
    else Some(width * height * BYTES_PER_PIXEL)
  }

  function Stride(s: Screen): nat {
    s.width * BYTES_PER_PIXEL
  }

  ghost predicate Shaped(s: Screen) {
    |s.pixels| == s.height * Stride(s)
  }

  ghost predicate GoodTile(t: Tile) {
    0 < t.width && 0 < t.height && |t.pixels| == t.height * (t.width * BYTES_PER_PIXEL)
  }

  /** Total size of the stored tiles. */
  ghost function TileBytes(cache: map<U16, Tile>): nat
    decreases |cache|
  {
    if cache == map[] then 0
    else
      var slot :| slot in cache;
      |cache[slot].pixels| + TileBytes(cache - {slot})
  }

  ghost predicate Valid(s: Screen) {
    && Shaped(s)
    && GoodList(s.dirty, s.width, s.height)
    && (forall slot :: slot in s.cache ==> GoodTile(s.cache[slot]))
    && s.cacheBytes == TileBytes(s.cache)
    && s.cacheBytes <= MAX_FRAMEBUFFER_BYTES
  }

  lemma {:induction false} TileBytesRemove(cache: map<U16, Tile>, slot: U16)
    requires slot in cache
    ensures TileBytes(cache) == |cache[slot].pixels| + TileBytes(cache - {slot})
    decreases |cache|
  {
    var first :| first in cache && TileBytes(cache) == |cache[first].pixels| + TileBytes(cache - {first});
    if first != slot {
      TileBytesRemove(cache - {first}, slot);
      TileBytesRemove(cache - {slot}, first);
      assert cache - {first} - {slot} == cache - {slot} - {first};
    }
  }

  lemma TileBytesInsert(cache: map<U16, Tile>, slot: U16, tile: Tile)
    ensures TileBytes(cache[slot := tile]) == |tile.pixels| + TileBytes(cache - {slot})
    ensures TileBytes(cache) == TileBytes(cache - {slot}) + if slot in cache then |cache[slot].pixels| else 0
  {
    TileBytesRemove(cache[slot := tile], slot);
    assert cache[slot := tile] - {slot} == cache - {slot};
    if slot in cache {
      TileBytesRemove(cache, slot);
    } else {
      assert cache - {slot} == cache;
    }
  }

  // ---------------------------------------------------------------- clipping

  function Clip(s: Screen, x: U16, y: U16, width: U16, height: U16): (r: Option<Box>) {
    if s.width == 0 || s.height == 0 || width == 0 || height == 0 || x >= s.width || y >= s.height then None
    else
      var right := Min(SatAdd(x, width), s.width);
      var bottom := Min(SatAdd(y, height), s.height);
      if right <= x || bottom <= y then None
      else Some(Box(x, y, right - x, bottom - y))
  }

  predicate OnScreen(s: Screen, px: int, py: int) {
    0 <= px < s.width && 0 <= py < s.height
  }

  /** Clipping is intersection with the screen: the 16-bit saturation never changes the answer. */
  lemma ClipIsIntersection(s: Screen, x: U16, y: U16, width: U16, height: U16, px: int, py: int)
    ensures OnScreen(s, px, py) && Within(px, py, x, y, width, height)
       <==> match Clip(s, x, y, width, height)
            case None => false
            case Some(b) => Within(px, py, b.x, b.y, b.width, b.height)
  {
  }

  function RectOf(b: Box): Rect
    requires b.x + b.width <= U16_MAX && b.y + b.height <= U16_MAX
  {
    Rect(b.x, b.y, b.x + b.width, b.y + b.height)
  }

  /** A box that `Clip` can return. */
  predicate Clipped(s: Screen, b: Box) {
    0 < b.width && 0 < b.height && b.x + b.width <= s.width && b.y + b.height <= s.height
  }

  lemma ClipIsClipped(s: Screen, x: U16, y: U16, width: U16, height: U16)
    ensures var r := Clip(s, x, y, width, height);
            r.Some? ==> Clipped(s, r.value) && r.value.x == x && r.value.y == y && r.value.width <= width && r.value.height <= height
  {
  }

  lemma ClippedFits(s: Screen, b: Box)
    requires Shaped(s) && Clipped(s, b)
    ensures Fits(|s.pixels|, Stride(s), b.x * BYTES_PER_PIXEL, b.y, b.width * BYTES_PER_PIXEL, b.height)
  {
    MulLe(b.y + b.height, s.height, Stride(s));
  }

  /** A packed image of `height` rows has room for any smaller rectangle at its corner. */
  lemma CornerFits(len: nat, width: nat, height: nat, cols: nat, rows: nat)
    requires 0 < width && cols <= width && rows <= height
    requires height * (width * BYTES_PER_PIXEL) <= len
    ensures Fits(len, width * BYTES_PER_PIXEL, 0, 0, cols * BYTES_PER_PIXEL, rows)
  {
    MulLe(rows, height, width * BYTES_PER_PIXEL);
  }

  // ---------------------------------------------------------------- drawing

  /** `count` pixels of one colour. */
  function Solid(colour: seq<Byte>, count: nat): (r: seq<Byte>)
    requires |colour| == BYTES_PER_PIXEL
    ensures |r| == count * BYTES_PER_PIXEL
  {
    if count == 0 then [] else Solid(colour, count - 1) + colour
  }

  lemma {:induction false} SolidSplit(colour: seq<Byte>, a: nat, b: nat)
    requires |colour| == BYTES_PER_PIXEL
    ensures Solid(colour, a + b) == Solid(colour, a) + Solid(colour, b)
  {
    if b > 0 {
      SolidSplit(colour, a, b - 1);
      assert Solid(colour, a + b) == Solid(colour, a + (b - 1)) + colour;
    }
  }

  lemma SolidSlice(colour: seq<Byte>, count: nat, a: nat, b: nat)
    requires |colour| == BYTES_PER_PIXEL && a + b <= count
    ensures Solid(colour, count)[a * BYTES_PER_PIXEL..(a + b) * BYTES_PER_PIXEL] == Solid(colour, b)
  {
    SolidSplit(colour, a, b);
    SolidSplit(colour, a + b, count - (a + b));
  }

  lemma {:induction false} SolidAt(colour: seq<Byte>, count: nat, i: nat)
    requires |colour| == BYTES_PER_PIXEL && i < count * BYTES_PER_PIXEL
    ensures Solid(colour, count)[i] == colour[i % BYTES_PER_PIXEL]
  {
    if i < (count - 1) * BYTES_PER_PIXEL {
      SolidAt(colour, count - 1, i);
    }
  }

  lemma SolidFits(colour: seq<Byte>, width: nat, height: nat)
    requires |colour| == BYTES_PER_PIXEL && 0 < width
    ensures |Solid(colour, width * height)| == height * (width * BYTES_PER_PIXEL)
    ensures Fits(|Solid(colour, width * height)|, width * BYTES_PER_PIXEL, 0, 0, width * BYTES_PER_PIXEL, height)
  {
    assert width * height * BYTES_PER_PIXEL == height * (width * BYTES_PER_PIXEL);
  }

  /** Screen `s` with new pixels, of which only box `b` may differ. */
  ghost function Draw(s: Screen, b: Box, pixels: seq<Byte>): Screen
    requires Clipped(s, b)
  {
    s.(pixels := pixels, dirty := Marked(s.dirty, RectOf(b)))
  }

  /** Box `b` of `s` overwritten by the rectangle of `src` at (srcX, srcY), both in pixels. */
  function Pasted(s: Screen, b: Box, src: seq<Byte>, srcWidth: nat, srcX: nat, srcY: nat): seq<Byte>
    requires Shaped(s) && Clipped(s, b)
    requires Fits(|src|, srcWidth * BYTES_PER_PIXEL, srcX * BYTES_PER_PIXEL, srcY, b.width * BYTES_PER_PIXEL, b.height)
  {
    ClippedFits(s, b);
    Blit(s.pixels, Stride(s), b.x * BYTES_PER_PIXEL, b.y, b.width * BYTES_PER_PIXEL, b.height,
         src, srcWidth * BYTES_PER_PIXEL, srcX * BYTES_PER_PIXEL, srcY)
  }

  ghost function Written(s: Screen, x: U16, y: U16, width: U16, height: U16, pixels: seq<Byte>): Screen
    requires Shaped(s)
  {
    match Clip(s, x, y, width, height)
    case None => s
    case Some(b) =>
      if |pixels| < height * (width * BYTES_PER_PIXEL) then s
      else
        CornerFits(|pixels|, width, height, b.width, b.height);
        Draw(s, b, Pasted(s, b, pixels, width, 0, 0))
  }

  ghost function CopyBox(s: Screen, srcX: U16, srcY: U16, width: U16, height: U16, dstX: U16, dstY: U16): (r: Option<Box>)
    ensures r.Some? ==> Clipped(s, r.value) && Clipped(s, Box(srcX, srcY, r.value.width, r.value.height))
  {
    match Clip(s, srcX, srcY, width, height)
    case None => None
    case Some(source) => Clip(s, dstX, dstY, source.width, source.height)
  }

  ghost function Copied(s: Screen, srcX: U16, srcY: U16, width: U16, height: U16, dstX: U16, dstY: U16): Screen
    requires Shaped(s)
  {
    match CopyBox(s, srcX, srcY, width, height, dstX, dstY)
    case None => s
    case Some(b) =>
      ClippedFits(s, Box(srcX, srcY, b.width, b.height));
      Draw(s, b, Pasted(s, b, s.pixels, s.width, srcX, srcY))
  }

  ghost function Painted(s: Screen, x: U16, y: U16, width: U16, height: U16, r: Byte, g: Byte, b: Byte): Screen
    requires Shaped(s)
  {
    match Clip(s, x, y, width, height)
    case None => s
    case Some(box) =>
      SolidFits([r, g, b, 0xFF], box.width, box.height);
      Draw(s, box, Pasted(s, box, Solid([r, g, b, 0xFF], box.width * box.height), box.width, 0, 0))
  }

  // ---------------------------------------------------------------- the tile cache

  /** The packed pixels of a clipped box. */
  function Packed(s: Screen, b: Box): seq<Byte>
    requires Shaped(s) && Clipped(s, b)
  {
    ClippedFits(s, b);
    Rows(s.pixels, Stride(s), b.x * BYTES_PER_PIXEL, b.y, b.width * BYTES_PER_PIXEL, b.height)
  }

  /** Bytes kept when `slot` is replaced; the source subtracts with saturation. */
  function Retained(s: Screen, slot: U16): nat {
    Max(s.cacheBytes - if slot in s.cache then |s.cache[slot].pixels| else 0, 0)
  }

  function Stored(s: Screen, slot: U16, x: U16, y: U16, width: U16, height: U16): (Screen, bool)
    requires Shaped(s)
  {
    match Clip(s, x, y, width, height)
    case None => (s, true)
    case Some(b) =>
      match CheckedLen(b.width, b.height)
      case None => (s, false)
      case Some(bytes) =>
        if bytes > Max(MAX_FRAMEBUFFER_BYTES - Retained(s, slot), 0) then (s, false)
        else (s.(cache := s.cache[slot := Tile(b.width, b.height, Packed(s, b))],
                 cacheBytes := Retained(s, slot) + bytes), true)
  }

  ghost function Restored(s: Screen, slot: U16, x: U16, y: U16): (Screen, bool)
    requires Valid(s)
  {
    if slot !in s.cache then (s, false)
    else
      var tile := s.cache[slot];
      match Clip(s, x, y, tile.width, tile.height)
      case None => (s, true)
      case Some(b) =>
        CornerFits(|tile.pixels|, tile.width, tile.height, b.width, b.height);
        (Draw(s, b, Pasted(s, b, tile.pixels, tile.width, 0, 0)), true)
  }

  function Evicted(s: Screen, slot: U16): Screen {
    if slot in s.cache then
      s.(cache := s.cache - {slot}, cacheBytes := Max(s.cacheBytes - |s.cache[slot].pixels|, 0))
    else s
  }

  // ---------------------------------------------------------------- size and refresh

  datatype Resizing = Unchanged | Changed | TooLarge

  function Resized(s: Screen, width: U16, height: U16): (Screen, Resizing) {
    match CheckedLen(width, height)
    case None => (s, TooLarge)
    case Some(len) =>
      if s.width == width && s.height == height then (s, Unchanged)
      else (Screen(width, height, seq(len, _ => 0), map[], 0, []), Changed)
  }

  function AllDirty(s: Screen): Screen {
    if s.width == 0 || s.height == 0 then s
    else s.(dirty := [Rect(0, 0, s.width, s.height)])
  }

  function Taken(dirty: seq<Rect>): (r: seq<Box>)
    requires forall k :: 0 <= k < |dirty| ==> Proper(dirty[k])
    ensures |r| == |dirty|
  {
    seq(|dirty|, k requires 0 <= k < |dirty| =>
      assert Proper(dirty[k]);
      Box(dirty[k].left, dirty[k].top, dirty[k].right - dirty[k].left, dirty[k].bottom - dirty[k].top))
  }

  function Extracted(s: Screen, b: Box): seq<Byte>
    requires Shaped(s)
  {
    match Clip(s, b.x, b.y, b.width, b.height)
    case None => []
    case Some(c) => Packed(s, c)
  }

  // ---------------------------------------------------------------- every operation keeps validity

  lemma DrawValid(s: Screen, b: Box, pixels: seq<Byte>)
    requires Valid(s) && Clipped(s, b) && |pixels| == |s.pixels|
    ensures Valid(Draw(s, b, pixels))
  {
    MarkedIsGood(s.dirty, RectOf(b), s.width, s.height);
  }

  lemma WrittenValid(s: Screen, x: U16, y: U16, width: U16, height: U16, pixels: seq<Byte>)
    requires Valid(s)
    ensures Valid(Written(s, x, y, width, height, pixels))
  {
    var r := Clip(s, x, y, width, height);
    if r.Some? && |pixels| >= height * (width * BYTES_PER_PIXEL) {
      CornerFits(|pixels|, width, height, r.value.width, r.value.height);
      DrawValid(s, r.value, Pasted(s, r.value, pixels, width, 0, 0));
    }
  }

  lemma CopiedValid(s: Screen, srcX: U16, srcY: U16, width: U16, height: U16, dstX: U16, dstY: U16)
    requires Valid(s)
    ensures Valid(Copied(s, srcX, srcY, width, height, dstX, dstY))
  {
    var r := CopyBox(s, srcX, srcY, width, height, dstX, dstY);
    if r.Some? {
      ClippedFits(s, Box(srcX, srcY, r.value.width, r.value.height));
      DrawValid(s, r.value, Pasted(s, r.value, s.pixels, s.width, srcX, srcY));
    }
  }

  lemma PaintedValid(s: Screen, x: U16, y: U16, width: U16, height: U16, r: Byte, g: Byte, b: Byte)
    requires Valid(s)
    ensures Valid(Painted(s, x, y, width, height, r, g, b))
  {
    var c := Clip(s, x, y, width, height);
    if c.Some? {
      var box := c.value;
      SolidFits([r, g, b, 0xFF], box.width, box.height);
      DrawValid(s, box, Pasted(s, box, Solid([r, g, b, 0xFF], box.width * box.height), box.width, 0, 0));
    }
  }

  lemma TileLength(width: nat, height: nat)
    ensures var len := CheckedLen(width, height);
            len.Some? ==> len.value == height * (width * BYTES_PER_PIXEL)
  {
  }

  /** The running byte count is exact, so neither subtraction saturates; a refused store changes nothing. */
  lemma StoredValid(s: Screen, slot: U16, x: U16, y: U16, width: U16, height: U16)
    requires Valid(s)
    ensures Valid(Stored(s, slot, x, y, width, height).0)
    ensures slot in s.cache ==> |s.cache[slot].pixels| <= s.cacheBytes
    ensures Retained(s, slot) == TileBytes(s.cache - {slot}) <= MAX_FRAMEBUFFER_BYTES
    ensures !Stored(s, slot, x, y, width, height).1 ==> Stored(s, slot, x, y, width, height).0 == s
  {
    var r := Clip(s, x, y, width, height);
    TileBytesInsert(s.cache, slot, Tile(0, 0, []));
    if r.Some? {
      TileLength(r.value.width, r.value.height);
      TileBytesInsert(s.cache, slot, Tile(r.value.width, r.value.height, Packed(s, r.value)));
    }
  }

  lemma RestoredValid(s: Screen, slot: U16, x: U16, y: U16)
    requires Valid(s)
    ensures Valid(Restored(s, slot, x, y).0)
  {
    if slot in s.cache {
      var tile := s.cache[slot];
      var r := Clip(s, x, y, tile.width, tile.height);
      if r.Some? {
        CornerFits(|tile.pixels|, tile.width, tile.height, r.value.width, r.value.height);
        DrawValid(s, r.value, Pasted(s, r.value, tile.pixels, tile.width, 0, 0));
      }
    }
  }

  lemma EvictedValid(s: Screen, slot: U16)
    requires Valid(s)
    ensures Valid(Evicted(s, slot))
  {
    TileBytesInsert(s.cache, slot, Tile(0, 0, []));
  }

  /** Evicting forgets the slot and frees exactly the bytes of its tile; nothing else changes. */
  lemma EvictedForgets(s: Screen, slot: U16)
    requires Valid(s)
    ensures var r := Evicted(s, slot);
            && slot !in r.cache
            && (forall other :: other in r.cache <==> other != slot && other in s.cache)
            && (forall other :: other in r.cache ==> r.cache[other] == s.cache[other])
            && r.cacheBytes == s.cacheBytes - (if slot in s.cache then |s.cache[slot].pixels| else 0)
            && r.width == s.width && r.height == s.height && r.pixels == s.pixels && r.dirty == s.dirty
  {
    TileBytesInsert(s.cache, slot, Tile(0, 0, []));
  }

  /** A store is accepted exactly when it stores nothing, or when what it stores and the tiles of the
      other slots stay within the budget. */
  lemma StoreFits(s: Screen, slot: U16, x: U16, y: U16, width: U16, height: U16)
    requires Valid(s)
    ensures Stored(s, slot, x, y, width, height).1
       <==> match Clip(s, x, y, width, height)
            case None => true
            case Some(b) => b.width * b.height * BYTES_PER_PIXEL + TileBytes(s.cache - {slot}) <= MAX_FRAMEBUFFER_BYTES
  {
    ClipIsClipped(s, x, y, width, height);
    StoredValid(s, slot, x, y, width, height);
  }

  /** The bytes an evict frees are available to the next store into another slot. */
  lemma EvictFrees(s: Screen, slot: U16, other: U16, x: U16, y: U16, width: U16, height: U16)
    requires Valid(s) && slot in s.cache && other != slot
    ensures Stored(Evicted(s, slot), other, x, y, width, height).1
       <==> match Clip(s, x, y, width, height)
            case None => true
            case Some(b) =>
              b.width * b.height * BYTES_PER_PIXEL + TileBytes(s.cache - {other}) - |s.cache[slot].pixels| <= MAX_FRAMEBUFFER_BYTES
  {
    var r := Evicted(s, slot);
    EvictedValid(s, slot);
    StoreFits(r, other, x, y, width, height);
    TileBytesRemove(s.cache - {other}, slot);
    assert r.cache - {other} == s.cache - {other} - {slot};
  }

  lemma ResizedValid(s: Screen, width: U16, height: U16)
    requires Valid(s)
    ensures Valid(Resized(s, width, height).0)
  {
    assert height * (width * BYTES_PER_PIXEL) == width * height * BYTES_PER_PIXEL;
  }

  /** Which sizes are refused, which change nothing, and that a new size starts all over: blank pixels, no
      dirt, no slot known and no byte counted. */
  lemma ResizedMeans(s: Screen, width: U16, height: U16)
    ensures var (r, outcome) := Resized(s, width, height);
            && (outcome == TooLarge <==> width == 0 || height == 0 || width * height > MAX_FRAMEBUFFER_PIXELS)
            && (outcome == Unchanged <==> outcome != TooLarge && s.width == width && s.height == height)
            && (outcome != Changed ==> r == s)
            && (outcome == Changed ==>
                  && r.width == width && r.height == height && Shaped(r) && (forall i :: 0 <= i < |r.pixels| ==> r.pixels[i] == 0)
                  && r.dirty == [] && r.cacheBytes == 0 && forall slot :: slot !in r.cache)
  {
    TileLength(width, height);
  }

  lemma EmptyValid()
    ensures Valid(EMPTY_SCREEN)
  {
  }
}
