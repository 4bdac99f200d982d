/** The framebuffer object itself (`services/rdp-core/src/egfx_surface.rs`): one reallocated pixel
    buffer, mutated in place by row loops. Every method is proved against `EgfxModel`. */
module EgfxSurface {
  import opened Words
  import opened Raster
  import opened DirtyRects
  import opened Pixels
  import opened EgfxModel

  /** The merge cost in unsigned 64-bit arithmetic: neither subtraction underflows. */
  method MergeCost(existing: Rect, rect: Rect) returns (added: U64)
    ensures added == Added(existing, rect)
  {
    MergeCostCountsCleanPixels(existing, rect);
    var merged: U64 := Area(Union(existing, rect));
    var separate: U64 := Area(existing) + Area(rect) - OverlapArea(existing, rect);
    added := merged - separate;
  }

  class Surface {
    var width: U16
    var height: U16
    var pixels: array<Byte>
    var cache: map<U16, Tile>
    var cacheBytes: nat
    var dirty: seq<Rect>
    var scratch: seq<Byte>

    ghost function State(): Screen
      reads this, pixels
    {
      Screen(width, height, pixels[..], cache, cacheBytes, dirty)
    }

    ghost predicate Ok()
      reads this, pixels
    {
      Valid(State())
    }

    constructor ()
      ensures Ok() && State() == EMPTY_SCREEN && fresh(pixels)
    {
      width, height := 0, 0;
      pixels := new Byte[0];
      cache, cacheBytes := map[], 0;
      dirty, scratch := [], [];
      new;
      EmptyValid();
      assert pixels[..] == [];
    }

    method TryResize(newWidth: U16, newHeight: U16) returns (outcome: Resizing)
      requires Ok()
      modifies this
      ensures Ok() && (State(), outcome) == Resized(old(State()), newWidth, newHeight)
      ensures if outcome == Changed then fresh(pixels) else pixels == old(pixels)
    {
      ResizedValid(State(), newWidth, newHeight);
      var len := CheckedLen(newWidth, newHeight);
      if len.None? {
        return TooLarge;
      }
      if width == newWidth && height == newHeight {
        return Unchanged;
      }
      var blank := new Byte[len.value](_ => 0);
      width, height, pixels := newWidth, newHeight, blank;
      dirty, cache, cacheBytes := [], map[], 0;
      assert pixels[..] == seq(len.value, _ => 0);
      return Changed;
    }

    method ClipBox(x: U16, y: U16, w: U16, h: U16) returns (r: Option<Box>)
      ensures r == Clip(State(), x, y, w, h)
    {
      if width == 0 || height == 0 || w == 0 || h == 0 || x >= width || y >= height {
        return None;
      }
      var right := Min(SatAdd(x, w), width);
      var bottom := Min(SatAdd(y, h), height);
      if right <= x || bottom <= y {
        return None;
      }
      return Some(Box(x, y, right - x, bottom - y));
    }

    /** Index and cost of the first rectangle that is cheapest to merge with. */
    method CheapestMerge(rect: Rect) returns (best: Option<(nat, U64)>)
      ensures best.None? <==> dirty == []
      ensures best.Some? ==> IsCheapest(dirty, rect, best.value.0) && best.value.1 == Added(dirty[best.value.0], rect)
    {
      best := None;
      for index := 0 to |dirty|
        invariant best.None? <==> index == 0
        invariant best.Some? ==>
          var (i, cost) := best.value;
          && i < index && cost == Added(dirty[i], rect)
          && (forall j :: 0 <= j < index ==> cost <= Added(dirty[j], rect))
          && (forall j :: 0 <= j < i ==> cost < Added(dirty[j], rect))
      {
        var added := MergeCost(dirty[index], rect);
        if best.None? || added < best.value.1 {
          best := Some((index, added));
        }
      }
    }

    /** The pair with the smallest bounding box, the first met among equals. */
    method CheapestPair() returns (first: nat, second: nat)
      requires 2 <= |dirty|
      ensures IsCheapestPair(dirty, first, second)
    {
      first, second := 0, 1;
      var best: U64 := U64_MAX;
      for i := 0 to |dirty|
        invariant i == 0 ==> best == U64_MAX
        invariant 0 <= first < second < |dirty|
        invariant i > 0 ==> best == PairCost(dirty, first, second)
        invariant forall p, q :: 0 <= p < q < |dirty| && p < i ==> !Preferred(dirty, p, q, first, second)
        invariant i > 0 ==> first < i
      {
        for j := i + 1 to |dirty|
          invariant 0 <= first < second < |dirty|
          invariant (i == 0 && j == 1) || best == PairCost(dirty, first, second)
          invariant (i == 0 && j == 1) ==> best == U64_MAX
          invariant forall p, q :: 0 <= p < q < |dirty| && (p < i || (p == i && q < j)) ==> !Preferred(dirty, p, q, first, second)
          invariant (i == 0 && j == 1) || first < i || (first == i && second < j)
        {
          var cost := Area(Union(dirty[i], dirty[j]));
          assert cost == PairCost(dirty, i, j) < U64_MAX;
          ghost var f, s := first, second;
          if cost < best {
            first, second, best := i, j, cost;
          }
          forall p, q | 0 <= p < q < |dirty| && (p < i || (p == i && q < j + 1)) ensures !Preferred(dirty, p, q, first, second) {
            if p < i || q < j {
              assert !Preferred(dirty, p, q, f, s);
            }
          }
        }
      }
    }

    method MarkDirty(b: Box)
      requires Clipped(State(), b)
      modifies `dirty
      ensures dirty == Marked(old(dirty), RectOf(b))
    {
      var rect := Rect(b.x, b.y, SatAdd(b.x, b.width), SatAdd(b.y, b.height));
      assert rect == RectOf(b);
      ghost var was := dirty;
      var best := CheapestMerge(rect);
      if best.Some? {
        var (index, added) := best.value;
        forall i | IsCheapest(was, rect, i) ensures i == index {
          CheapestUnique(was, rect, i, index);
        }
        if added <= MERGE_SLACK {
          dirty := dirty[index := Union(dirty[index], rect)];
          return;
        }
      }
      if |dirty| < MAX_DIRTY_RECTS {
        dirty := dirty + [rect];
        return;
      }
      dirty := dirty + [rect];
      var i, j := CheapestPair();
      forall p, q | IsCheapestPair(dirty, p, q) ensures p == i && q == j {
        CheapestPairUnique(dirty, p, q, i, j);
      }
      dirty := dirty[i := Union(dirty[i], dirty[j])];
      dirty := dirty[..j] + dirty[j + 1..];
    }

    method Write(x: U16, y: U16, w: U16, h: U16, bytes: seq<Byte>)
      requires Ok()
      modifies `dirty, pixels
      ensures Ok() && State() == Written(old(State()), x, y, w, h, bytes)
    {
      WrittenValid(State(), x, y, w, h, bytes);
      ClipIsClipped(State(), x, y, w, h);
      var clipped := ClipBox(x, y, w, h);
      if clipped.None? {
        return;
      }
      var b := clipped.value;
      var sourceStride := w * BYTES_PER_PIXEL;
      assert sourceStride * h == h * sourceStride;
      if |bytes| < sourceStride * h {
        return;
      }
      CornerFits(|bytes|, w, h, b.width, b.height);
      ClippedFits(State(), b);
      BlitRows(pixels, width * BYTES_PER_PIXEL, b.x * BYTES_PER_PIXEL, b.y, b.width * BYTES_PER_PIXEL, b.height,
               bytes, sourceStride, 0, 0);
      MarkDirty(b);
    }

    method Copy(srcX: U16, srcY: U16, w: U16, h: U16, dstX: U16, dstY: U16)
      requires Ok()
      modifies `dirty, `scratch, pixels
      ensures Ok() && State() == Copied(old(State()), srcX, srcY, w, h, dstX, dstY)
    {
      CopiedValid(State(), srcX, srcY, w, h, dstX, dstY);
      ClipIsClipped(State(), srcX, srcY, w, h);
      var source := ClipBox(srcX, srcY, w, h);
      if source.None? {
        return;
      }
      ClipIsClipped(State(), dstX, dstY, source.value.width, source.value.height);
      var clipped := ClipBox(dstX, dstY, source.value.width, source.value.height);
      if clipped.None? {
        return;
      }
      var b := clipped.value;
      ghost var from := Box(srcX, srcY, b.width, b.height);
      ClippedFits(State(), from);
      ClippedFits(State(), b);
      var stride := width * BYTES_PER_PIXEL;
      var rowBytes := b.width * BYTES_PER_PIXEL;
      ThroughScratch(pixels[..], stride, b.x * BYTES_PER_PIXEL, b.y, rowBytes, b.height,
                     pixels[..], stride, srcX * BYTES_PER_PIXEL, srcY);
      scratch := PackRows(pixels, stride, srcX * BYTES_PER_PIXEL, srcY, rowBytes, b.height);
      BlitRows(pixels, stride, b.x * BYTES_PER_PIXEL, b.y, rowBytes, b.height, scratch, rowBytes, 0, 0);
      MarkDirty(b);
    }

    method Fill(x: U16, y: U16, w: U16, h: U16, red: Byte, green: Byte, blue: Byte)
      requires Ok()
      modifies `dirty, pixels
      ensures Ok() && State() == Painted(old(State()), x, y, w, h, red, green, blue)
    {
      PaintedValid(State(), x, y, w, h, red, green, blue);
      ClipIsClipped(State(), x, y, w, h);
      var clipped := ClipBox(x, y, w, h);
      if clipped.None? {
        return;
      }
      var b := clipped.value;
      ClippedFits(State(), b);
      FillRows(pixels, width * BYTES_PER_PIXEL, b.x * BYTES_PER_PIXEL, b.y, b.width, b.height, [red, green, blue, 0xFF]);
      MarkDirty(b);
    }

    method CacheStore(slot: U16, srcX: U16, srcY: U16, w: U16, h: U16) returns (stored: bool)
      requires Ok()
      modifies `cache, `cacheBytes
      ensures Ok() && (State(), stored) == Stored(old(State()), slot, srcX, srcY, w, h)
    {
      StoredValid(State(), slot, srcX, srcY, w, h);
      ClipIsClipped(State(), srcX, srcY, w, h);
      var clipped := ClipBox(srcX, srcY, w, h);
      if clipped.None? {
        return true;
      }
      var b := clipped.value;
      var tileBytes := CheckedLen(b.width, b.height);
      if tileBytes.None? {
        return false;
      }
      var replaced := if slot in cache then |cache[slot].pixels| else 0;
      var retained := cacheBytes - replaced;
      if tileBytes.value > MAX_FRAMEBUFFER_BYTES - retained {
        return false;
      }
      ClippedFits(State(), b);
      var packed := PackRows(pixels, width * BYTES_PER_PIXEL, b.x * BYTES_PER_PIXEL, b.y,
                             b.width * BYTES_PER_PIXEL, b.height);
      cache := cache[slot := Tile(b.width, b.height, packed)];
      cacheBytes := retained + tileBytes.value;
      assert State() == Stored(old(State()), slot, srcX, srcY, w, h).0;
      return true;
    }

    method CacheRestore(slot: U16, dstX: U16, dstY: U16) returns (known: bool)
      requires Ok()
      modifies `dirty, `scratch, pixels
      ensures Ok() && (State(), known) == Restored(old(State()), slot, dstX, dstY)
    {
      RestoredValid(State(), slot, dstX, dstY);
      if slot !in cache {
        return false;
      }
      var tile := cache[slot];
      ClipIsClipped(State(), dstX, dstY, tile.width, tile.height);
      var clipped := ClipBox(dstX, dstY, tile.width, tile.height);
      if clipped.None? {
        return true;
      }
      var b := clipped.value;
      var sourceStride := tile.width * BYTES_PER_PIXEL;
      var rowBytes := b.width * BYTES_PER_PIXEL;
      CornerFits(|tile.pixels|, tile.width, tile.height, b.width, b.height);
      ClippedFits(State(), b);
      ThroughScratch(pixels[..], width * BYTES_PER_PIXEL, b.x * BYTES_PER_PIXEL, b.y, rowBytes, b.height,
                     tile.pixels, sourceStride, 0, 0);
      scratch := PackTile(tile, b.width, b.height);
      BlitRows(pixels, width * BYTES_PER_PIXEL, b.x * BYTES_PER_PIXEL, b.y, rowBytes, b.height, scratch, rowBytes, 0, 0);
      MarkDirty(b);
      return true;
    }

    method CacheEvict(slot: U16)
      requires Ok()
      modifies `cache, `cacheBytes
      ensures Ok() && State() == Evicted(old(State()), slot)
    {
      EvictedValid(State(), slot);
      TileBytesInsert(cache, slot, Tile(0, 0, []));
      if slot in cache {
        cacheBytes := cacheBytes - |cache[slot].pixels|;
        cache := cache - {slot};
      }
    }

    method MarkAllDirty()
      requires Ok()
      modifies `dirty
      ensures Ok() && State() == AllDirty(old(State()))
    {
      if width == 0 || height == 0 {
        return;
      }
      dirty := [];
      dirty := dirty + [Rect(0, 0, width, height)];
    }

    method TakeDirty() returns (out: seq<Box>)
      requires Ok()
      modifies `dirty
      ensures Ok() && out == Taken(old(dirty)) && State() == old(State()).(dirty := [])
    {
      out := [];
      for k := 0 to |dirty|
        invariant out == Taken(dirty)[..k]
        invariant dirty == old(dirty)
      {
        var r := dirty[k];
        assert InScreen(r, width, height);
        if r.right <= r.left || r.bottom <= r.top {
          continue;
        }
        out := out + [Box(r.left, r.top, r.right - r.left, r.bottom - r.top)];
      }
      dirty := [];
    }

    method Extract(rect: Box) returns (out: seq<Byte>)
      requires Ok()
      ensures out == Extracted(State(), rect)
    {
      ClipIsClipped(State(), rect.x, rect.y, rect.width, rect.height);
      var clipped := ClipBox(rect.x, rect.y, rect.width, rect.height);
      if clipped.None? {
        return [];
      }
      var b := clipped.value;
      ClippedFits(State(), b);
      out := PackRows(pixels, width * BYTES_PER_PIXEL, b.x * BYTES_PER_PIXEL, b.y, b.width * BYTES_PER_PIXEL, b.height);
    }
  }

  /** The rows of a tile that reach the screen, packed. */
  method PackTile(tile: Tile, cols: nat, rows: nat) returns (out: seq<Byte>)
    requires GoodTile(tile) && cols <= tile.width && rows <= tile.height
    ensures Fits(|tile.pixels|, tile.width * BYTES_PER_PIXEL, 0, 0, cols * BYTES_PER_PIXEL, rows)
    ensures out == Rows(tile.pixels, tile.width * BYTES_PER_PIXEL, 0, 0, cols * BYTES_PER_PIXEL, rows)
  {
    var stride, rowBytes := tile.width * BYTES_PER_PIXEL, cols * BYTES_PER_PIXEL;
    CornerFits(|tile.pixels|, tile.width, tile.height, cols, rows);
    out := [];
    FitsFewer(|tile.pixels|, stride, 0, 0, rowBytes, rows, 0);
    for row := 0 to rows
      invariant Fits(|tile.pixels|, stride, 0, 0, rowBytes, row)
      invariant out == Rows(tile.pixels, stride, 0, 0, rowBytes, row)
    {
      FitsRow(|tile.pixels|, stride, 0, 0, rowBytes, rows, row);
      FitsFewer(|tile.pixels|, stride, 0, 0, rowBytes, rows, row + 1);
      var from := row * stride;
      out := out + tile.pixels[from..from + rowBytes];
    }
  }

  method SetPixel(pixels: array<Byte>, at: nat, colour: seq<Byte>)
    requires at + 4 <= pixels.Length && |colour| == 4
    modifies pixels
    ensures pixels[..] == old(pixels[..at]) + colour + old(pixels[at + 4..])
  {
    pixels[at] := colour[0];
    pixels[at + 1] := colour[1];
    pixels[at + 2] := colour[2];
    pixels[at + 3] := colour[3];
  }

  /** The `chunks_exact_mut` loop of one row. */
  method FillRow(pixels: array<Byte>, start: nat, width: nat, colour: seq<Byte>)
    requires start + width * BYTES_PER_PIXEL <= pixels.Length && |colour| == BYTES_PER_PIXEL
    modifies pixels
    ensures pixels[..] == old(pixels[..start]) + Solid(colour, width) + old(pixels[start + width * BYTES_PER_PIXEL..])
  {
    ghost var was := pixels[..];
    for k := 0 to width
      invariant pixels[..] == was[..start] + Solid(colour, k) + was[start + k * BYTES_PER_PIXEL..]
    {
      ghost var before := pixels[..];
      var at := start + k * BYTES_PER_PIXEL;
      SetPixel(pixels, at, colour);
      assert before[..at] == was[..start] + Solid(colour, k);
      assert before[at + 4..] == was[at + 4..];
      assert Solid(colour, k + 1) == Solid(colour, k) + colour;
    }
  }

  lemma RowPixels(width: nat, height: nat, row: nat)
    requires row < height
    ensures row * (width * BYTES_PER_PIXEL) == (row * width) * BYTES_PER_PIXEL
    ensures row * width + width <= width * height
  {
    NextRow(row, height, width);
  }

  /** A row of a solid image is a solid row. */
  lemma SolidRow(colour: seq<Byte>, width: nat, height: nat, row: nat)
    requires |colour| == BYTES_PER_PIXEL && row < height
    ensures var from := row * (width * BYTES_PER_PIXEL);
            && from + width * BYTES_PER_PIXEL <= |Solid(colour, width * height)|
            && Solid(colour, width * height)[from..from + width * BYTES_PER_PIXEL] == Solid(colour, width)
  {
    RowPixels(width, height, row);
    SolidRowOf(colour, width * height, row * width, width, row * (width * BYTES_PER_PIXEL));
  }

  lemma SolidRowOf(colour: seq<Byte>, count: nat, a: nat, width: nat, from: nat)
    requires |colour| == BYTES_PER_PIXEL && a + width <= count && from == a * BYTES_PER_PIXEL
    ensures from + width * BYTES_PER_PIXEL <= |Solid(colour, count)|
    ensures Solid(colour, count)[from..from + width * BYTES_PER_PIXEL] == Solid(colour, width)
  {
    SolidSlice(colour, count, a, width);
  }

  /** The row loop of `fill`. */
  method FillRows(pixels: array<Byte>, stride: nat, col: nat, top: nat, width: nat, rows: nat, colour: seq<Byte>)
    requires Fits(pixels.Length, stride, col, top, width * BYTES_PER_PIXEL, rows)
    requires |colour| == BYTES_PER_PIXEL && 0 < width
    modifies pixels
    ensures Fits(|Solid(colour, width * rows)|, width * BYTES_PER_PIXEL, 0, 0, width * BYTES_PER_PIXEL, rows)
    ensures pixels[..] == Blit(old(pixels[..]), stride, col, top, width * BYTES_PER_PIXEL, rows,
                               Solid(colour, width * rows), width * BYTES_PER_PIXEL, 0, 0)
  {
    ghost var was, src, cols := pixels[..], Solid(colour, width * rows), width * BYTES_PER_PIXEL;
    SolidFits(colour, width, rows);
    FitsFewer(pixels.Length, stride, col, top, cols, rows, 0);
    assert was == Blit(was, stride, col, top, cols, 0, src, cols, 0, 0);
    for row := 0 to rows
      invariant Fits(|was|, stride, col, top, cols, row) && Fits(|src|, cols, 0, 0, cols, row)
      invariant pixels[..] == Blit(was, stride, col, top, cols, row, src, cols, 0, 0)
    {
      BlitNextRow(was, stride, col, top, cols, rows, src, cols, 0, 0, row);
      SolidRow(colour, width, rows, row);
      FillRow(pixels, (top + row) * stride + col, width, colour);
    }
  }
}
