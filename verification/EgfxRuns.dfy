/** Whole runs of the framebuffer together with the pump that announces its size and sends its dirty
    rectangles, and with the picture the renderer accumulates from them
    (`services/rdp-core/src/egfx_surface.rs`, the pump loop and `flush_egfx` in
    `services/rdp-core/src/session.rs`).

    The pump compares the framebuffer's size with the size it announced last only at the top of its
    loop, right before a flush. A flush takes the dirty list and then extracts the rectangles one by
    one, locking the framebuffer anew for each, so any command may come between two of its steps. */
module EgfxRuns {
  import opened Words
  import opened Raster
  import opened DirtyRects
  import opened EgfxModel
  import opened Pixels

  datatype Size = Size(width: U16, height: U16)

  datatype Command =
    | Write(x: U16, y: U16, w: U16, h: U16, bytes: seq<Byte>)
    | Copy(srcX: U16, srcY: U16, w: U16, h: U16, dstX: U16, dstY: U16)
    | Fill(x: U16, y: U16, w: U16, h: U16, red: Byte, green: Byte, blue: Byte)
    | Store(slot: U16, srcX: U16, srcY: U16, w: U16, h: U16)
    | Restore(slot: U16, dstX: U16, dstY: U16)
    | Evict(slot: U16)
    | Resize(w: U16, h: U16)    // by the graphics pipeline, or by a reactivation
    | Tell(size: Size)          // a "resized" event that is not recorded: a reactivation's, or a new layout's
    | Notice                    // the check at the top of the pump loop
    | Refresh(lost: seq<Byte>)  // the renderer's picture is replaced by anything, and all is marked dirty
    | Take                      // the check, and then the pump takes the dirty list, if it has sent the previous one
    | Send                      // the pump extracts and sends one rectangle

  /** What the renderer has accumulated. */
  datatype View = View(size: Size, pixels: seq<Byte>)

  /** The framebuffer, the renderer's picture, the size announced last, and the rectangles taken but not
      yet sent. */
  datatype Pump = Pump(screen: Screen, view: View, announced: Size, hand: seq<Box>)

  function SizeOf(s: Screen): Size {
    Size(s.width, s.height)
  }

  function Blank(size: Size): (r: seq<Byte>)
    ensures |r| == size.height * (size.width * BYTES_PER_PIXEL)
    ensures forall i :: 0 <= i < |r| ==> r[i] == 0
  {
    seq(size.height * (size.width * BYTES_PER_PIXEL), _ => 0)
  }

  /** A renderer told of a new size starts from a blank picture; told of the size it has, it keeps what it shows. */
  function Told(v: View, size: Size): View {
    if v.size == size then v else View(size, Blank(size))
  }

  /** The check at the top of the loop. */
  function Noticed(p: Pump): Pump {
    var current := SizeOf(p.screen);
    if current != Size(0, 0) && current != p.announced then p.(view := Told(p.view, current), announced := current)
    else p
  }

  /** The session has connected: the framebuffer has the size the server settled on, which the renderer knows. */
  function Connected(size: Size): Pump {
    Pump(Resized(EMPTY_SCREEN, size.width, size.height).0, View(size, Blank(size)), size, [])
  }

  ghost predicate Whole(v: View) {
    |v.pixels| == v.size.height * (v.size.width * BYTES_PER_PIXEL)
  }

  predicate Holds(v: View, b: Box) {
    0 < b.width && 0 < b.height && b.x + b.width <= v.size.width && b.y + b.height <= v.size.height
  }

  lemma HeldFits(v: View, b: Box)
    requires Whole(v) && Holds(v, b)
    ensures Fits(|v.pixels|, v.size.width * BYTES_PER_PIXEL, b.x * BYTES_PER_PIXEL, b.y, b.width * BYTES_PER_PIXEL, b.height)
  {
    MulLe(b.y + b.height, v.size.height, v.size.width * BYTES_PER_PIXEL);
  }

  /** The renderer paints a frame at its position; a frame whose payload does not match its header, or
      that does not fit, is refused. */
  ghost function Shown(v: View, b: Box, payload: seq<Byte>): View {
    if |payload| == b.height * (b.width * BYTES_PER_PIXEL) && Holds(v, b) && Whole(v) then
      HeldFits(v, b);
      v.(pixels := Blit(v.pixels, v.size.width * BYTES_PER_PIXEL, b.x * BYTES_PER_PIXEL, b.y, b.width * BYTES_PER_PIXEL, b.height,
                        payload, b.width * BYTES_PER_PIXEL, 0, 0))
    else v
  }

  /** What the commands that draw, or that only use the tile cache, make of the framebuffer. */
  ghost function Drawn(s: Screen, c: Command): Screen
    requires Valid(s)
  {
    match c
    case Write(x, y, w, h, bytes) => Written(s, x, y, w, h, bytes)
    case Copy(srcX, srcY, w, h, dstX, dstY) => Copied(s, srcX, srcY, w, h, dstX, dstY)
    case Fill(x, y, w, h, red, green, blue) => Painted(s, x, y, w, h, red, green, blue)
    case Store(slot, srcX, srcY, w, h) => Stored(s, slot, srcX, srcY, w, h).0
    case Restore(slot, dstX, dstY) => Restored(s, slot, dstX, dstY).0
    case Evict(slot) => Evicted(s, slot)
    case _ => s
  }

  ghost function Step(p: Pump, c: Command): Pump
    requires Valid(p.screen)
  {
    match c
    case Resize(w, h) => p.(screen := Resized(p.screen, w, h).0)
    case Tell(size) => p.(view := Told(p.view, size))
    case Notice => Noticed(p)
    case Refresh(lost) =>
      p.(screen := AllDirty(p.screen), view := if |lost| == |p.view.pixels| then p.view.(pixels := lost) else p.view)
    case Take =>
      if p.hand == [] then Noticed(p).(screen := p.screen.(dirty := []), hand := Taken(p.screen.dirty)) else p
    case Send =>
      if p.hand == [] then p
      else p.(view := Shown(p.view, p.hand[0], Extracted(p.screen, p.hand[0])), hand := p.hand[1..])
    case _ => p.(screen := Drawn(p.screen, c))
  }

  // ---------------------------------------------------------------- what is still to be sent

  /** Pixel (x, y) lies in one of the rectangles in hand that still fits the screen. */
  ghost predicate InHand(s: Screen, hand: seq<Box>, x: int, y: int) {
    exists k :: 0 <= k < |hand| && Clipped(s, hand[k]) && Within(x, y, hand[k].x, hand[k].y, hand[k].width, hand[k].height)
  }

  /** Byte `i` of the framebuffer will still be sent. */
  ghost predicate Pending(s: Screen, hand: seq<Box>, i: nat) {
    0 < s.width && (Covered(s.dirty, PixelX(s.width, i), PixelY(s.width, i)) || InHand(s, hand, PixelX(s.width, i), PixelY(s.width, i)))
  }

  /** Every byte in which `shown` differs from the framebuffer will still be sent. */
  ghost predicate Tracked(s: Screen, shown: seq<Byte>, hand: seq<Box>) {
    && |shown| == |s.pixels|
    && forall i :: 0 <= i < |shown| && shown[i] != s.pixels[i] ==> Pending(s, hand, i)
  }

  /** What holds in every run: as long as the size has not been announced, all that was drawn at that
      size is still to be sent. */
  ghost predicate Inv(p: Pump) {
    && Valid(p.screen) && 0 < p.screen.width && 0 < p.screen.height
    && Whole(p.view)
    && (p.announced != SizeOf(p.screen) ==> Tracked(p.screen, Blank(SizeOf(p.screen)), []))
  }

  /** The renderer has the framebuffer's size, and every byte it shows wrongly will still be sent. */
  ghost predicate InStep(p: Pump) {
    p.view.size == SizeOf(p.screen) && Tracked(p.screen, p.view.pixels, p.hand)
  }

  /** The next check will make the renderer start from a blank picture of the right size. */
  predicate WillBlank(p: Pump) {
    p.announced != SizeOf(p.screen) && p.view.size != SizeOf(p.screen)
  }

  ghost predicate Repairable(p: Pump) {
    InStep(p) || WillBlank(p)
  }

  /** The guard of each command. A new size must be one that was neither announced last nor is the
      renderer's, so that the next check blanks the renderer; or the renderer, having that size already,
      must be blank but for what is in hand. An unrecorded event must name the renderer's size or the
      framebuffer's, or come while a check is due anyway. Nothing else can go wrong. */
  ghost predicate Heard(p: Pump, c: Command)
    requires Valid(p.screen)
  {
    match c
    case Resize(w, h) =>
      var (screen, outcome) := Resized(p.screen, w, h);
      outcome == Changed ==>
        (Size(w, h) != p.announced && Size(w, h) != p.view.size)
        || (Size(w, h) == p.view.size && forall i :: 0 <= i < |p.view.pixels| && p.view.pixels[i] != 0 ==> Pending(screen, p.hand, i))
    case Tell(size) => size == p.view.size || size == SizeOf(p.screen) || p.announced != SizeOf(p.screen)
    case _ => true
  }

  // ---------------------------------------------------------------- draws

  predicate SameShape(s: Screen, after: Screen) {
    after.width == s.width && after.height == s.height
  }

  /** Nothing that was waiting in the list or in hand is forgotten. */
  lemma StillPending(s: Screen, b: Box, pixels: seq<Byte>, hand: seq<Box>, i: nat)
    requires Clipped(s, b)
    requires Pending(s, hand, i) || (0 < s.width && Covers(RectOf(b), PixelX(s.width, i), PixelY(s.width, i)))
    ensures Pending(Draw(s, b, pixels), hand, i)
  {
    var x, y := PixelX(s.width, i), PixelY(s.width, i);
    if Covers(RectOf(b), x, y) || Covered(s.dirty, x, y) {
      MarkedCovers(s.dirty, RectOf(b), x, y);
    } else {
      var k :| 0 <= k < |hand| && Clipped(s, hand[k]) && Within(x, y, hand[k].x, hand[k].y, hand[k].width, hand[k].height);
      assert Clipped(Draw(s, b, pixels), hand[k]);
    }
  }

  /** A draw changes bytes of its box only, and marks that box. */
  lemma DrawTracked(s: Screen, shown: seq<Byte>, hand: seq<Box>, b: Box, pixels: seq<Byte>)
    requires Valid(s) && Tracked(s, shown, hand) && Clipped(s, b) && |pixels| == |s.pixels|
    requires forall i :: 0 <= i < |pixels| && pixels[i] != s.pixels[i] ==>
               Inside(i, Stride(s), b.x * BYTES_PER_PIXEL, b.y, b.width * BYTES_PER_PIXEL, b.height)
    ensures Valid(Draw(s, b, pixels)) && Tracked(Draw(s, b, pixels), shown, hand)
  {
    DrawValid(s, b, pixels);
    forall i | 0 <= i < |shown| && shown[i] != pixels[i] ensures Pending(Draw(s, b, pixels), hand, i) {
      InsideIsWithin(s.width, b.x, b.y, b.width, b.height, i);
      StillPending(s, b, pixels, hand, i);
    }
  }

  lemma PastedTracked(s: Screen, shown: seq<Byte>, hand: seq<Box>, b: Box, src: seq<Byte>, srcWidth: nat, srcX: nat, srcY: nat)
    requires Valid(s) && Tracked(s, shown, hand) && Clipped(s, b)
    requires Fits(|src|, srcWidth * BYTES_PER_PIXEL, srcX * BYTES_PER_PIXEL, srcY, b.width * BYTES_PER_PIXEL, b.height)
    ensures var after := Draw(s, b, Pasted(s, b, src, srcWidth, srcX, srcY));
            Valid(after) && Tracked(after, shown, hand)
  {
    ClippedFits(s, b);
    DrawTracked(s, shown, hand, b, Pasted(s, b, src, srcWidth, srcX, srcY));
  }

  lemma PaintTracked(s: Screen, shown: seq<Byte>, hand: seq<Box>, c: Command)
    requires Valid(s) && Tracked(s, shown, hand) && (c.Write? || c.Copy? || c.Fill? || c.Restore?)
    ensures Valid(Drawn(s, c)) && Tracked(Drawn(s, c), shown, hand)
  {
    match c {
      case Write(x, y, w, h, bytes) =>
        ClipIsClipped(s, x, y, w, h);
        var r := Clip(s, x, y, w, h);
        if r.Some? && |bytes| >= h * (w * BYTES_PER_PIXEL) {
          CornerFits(|bytes|, w, h, r.value.width, r.value.height);
          PastedTracked(s, shown, hand, r.value, bytes, w, 0, 0);
        }
      case Copy(srcX, srcY, w, h, dstX, dstY) =>
        var r := CopyBox(s, srcX, srcY, w, h, dstX, dstY);
        if r.Some? {
          ClippedFits(s, Box(srcX, srcY, r.value.width, r.value.height));
          PastedTracked(s, shown, hand, r.value, s.pixels, s.width, srcX, srcY);
        }
      case Fill(x, y, w, h, red, green, blue) =>
        ClipIsClipped(s, x, y, w, h);
        var r := Clip(s, x, y, w, h);
        if r.Some? {
          SolidFits([red, green, blue, 0xFF], r.value.width, r.value.height);
          PastedTracked(s, shown, hand, r.value, Solid([red, green, blue, 0xFF], r.value.width * r.value.height), r.value.width, 0, 0);
        }
      case Restore(slot, dstX, dstY) =>
        if slot in s.cache {
          var tile := s.cache[slot];
          ClipIsClipped(s, dstX, dstY, tile.width, tile.height);
          var r := Clip(s, dstX, dstY, tile.width, tile.height);
          if r.Some? {
            CornerFits(|tile.pixels|, tile.width, tile.height, r.value.width, r.value.height);
            PastedTracked(s, shown, hand, r.value, tile.pixels, tile.width, 0, 0);
          }
        }
      case _ =>
    }
  }

  lemma SameTracked(s: Screen, shown: seq<Byte>, hand: seq<Box>, after: Screen)
    requires Tracked(s, shown, hand)
    requires after.pixels == s.pixels && SameShape(s, after) && after.dirty == s.dirty
    ensures Tracked(after, shown, hand)
  {
    forall i | 0 <= i < |shown| && shown[i] != after.pixels[i] ensures Pending(after, hand, i) {
      var x, y := PixelX(s.width, i), PixelY(s.width, i);
      if !Covered(s.dirty, x, y) {
        var k :| 0 <= k < |hand| && Clipped(s, hand[k]) && Within(x, y, hand[k].x, hand[k].y, hand[k].width, hand[k].height);
        assert Clipped(after, hand[k]);
      }
    }
  }

  /** Drawing and caching keep every wrongly shown byte waiting to be sent. */
  lemma DrawnTracked(s: Screen, shown: seq<Byte>, hand: seq<Box>, c: Command)
    requires Valid(s) && Tracked(s, shown, hand)
    ensures Tracked(Drawn(s, c), shown, hand)
  {
    match c {
      case Store(slot, srcX, srcY, w, h) => SameTracked(s, shown, hand, Stored(s, slot, srcX, srcY, w, h).0);
      case Evict(slot) => SameTracked(s, shown, hand, Evicted(s, slot));
      case Write(_, _, _, _, _) => PaintTracked(s, shown, hand, c);
      case Copy(_, _, _, _, _, _) => PaintTracked(s, shown, hand, c);
      case Fill(_, _, _, _, _, _, _) => PaintTracked(s, shown, hand, c);
      case Restore(_, _, _) => PaintTracked(s, shown, hand, c);
      case _ =>
    }
  }

  lemma DrawnValid(s: Screen, c: Command)
    requires Valid(s)
    ensures Valid(Drawn(s, c)) && SameShape(s, Drawn(s, c))
  {
    match c {
      case Write(x, y, w, h, bytes) => WrittenValid(s, x, y, w, h, bytes);
      case Copy(srcX, srcY, w, h, dstX, dstY) => CopiedValid(s, srcX, srcY, w, h, dstX, dstY);
      case Fill(x, y, w, h, red, green, blue) => PaintedValid(s, x, y, w, h, red, green, blue);
      case Store(slot, srcX, srcY, w, h) => StoredValid(s, slot, srcX, srcY, w, h);
      case Restore(slot, dstX, dstY) => RestoredValid(s, slot, dstX, dstY);
      case Evict(slot) => EvictedValid(s, slot);
      case _ =>
    }
  }

  // ---------------------------------------------------------------- the pump

  lemma AllPending(s: Screen, shown: seq<Byte>, hand: seq<Box>)
    requires Shaped(s) && 0 < s.width && 0 < s.height && |shown| == |s.pixels|
    ensures Tracked(AllDirty(s), shown, hand)
  {
    var after := AllDirty(s);
    forall i | 0 <= i < |shown| ensures Covered(after.dirty, PixelX(s.width, i), PixelY(s.width, i)) {
      PixelOfByte(s.width, s.height, i);
      assert Covers(after.dirty[0], PixelX(s.width, i), PixelY(s.width, i));
    }
  }

  /** Taking moves what is to be sent from the dirty list into the pump's hand, no more and no less. */
  lemma TakeMoves(s: Screen, shown: seq<Byte>)
    requires Valid(s)
    ensures Tracked(s, shown, []) <==> Tracked(s.(dirty := []), shown, Taken(s.dirty))
  {
    var after, hand := s.(dirty := []), Taken(s.dirty);
    forall i: nat ensures Pending(s, [], i) <==> Pending(after, hand, i) {
      if 0 < s.width {
        var x, y := PixelX(s.width, i), PixelY(s.width, i);
        if Covered(s.dirty, x, y) {
          var k :| 0 <= k < |s.dirty| && Covers(s.dirty[k], x, y);
          assert InScreen(s.dirty[k], s.width, s.height);
          assert Clipped(after, hand[k]);
        }
        if InHand(after, hand, x, y) {
          var k :| 0 <= k < |hand| && Clipped(after, hand[k]) && Within(x, y, hand[k].x, hand[k].y, hand[k].width, hand[k].height);
          assert Proper(s.dirty[k]);
          assert Covers(s.dirty[k], x, y);
        }
      }
    }
  }

  /** Extracting a box and painting it makes the renderer right inside the box, if it is on the screen,
      and touches nothing else. */
  lemma ShownAgrees(s: Screen, v: View, b: Box)
    requires Shaped(s) && Whole(v) && v.size == SizeOf(s) && 0 < s.width
    ensures var r := Shown(v, b, Extracted(s, b));
            && r.size == v.size && |r.pixels| == |v.pixels| == |s.pixels|
            && forall i :: 0 <= i < |r.pixels| ==>
                 r.pixels[i] == if Clipped(s, b) && Within(PixelX(s.width, i), PixelY(s.width, i), b.x, b.y, b.width, b.height) then s.pixels[i] else v.pixels[i]
  {
    if Clipped(s, b) {
      assert Clip(s, b.x, b.y, b.width, b.height) == Some(b);
      ClippedFits(s, b);
      PaintBack(v.pixels, s.pixels, Stride(s), b.x * BYTES_PER_PIXEL, b.y, b.width * BYTES_PER_PIXEL, b.height);
      forall i | 0 <= i < |s.pixels|
        ensures Inside(i, Stride(s), b.x * BYTES_PER_PIXEL, b.y, b.width * BYTES_PER_PIXEL, b.height)
           <==> Within(PixelX(s.width, i), PixelY(s.width, i), b.x, b.y, b.width, b.height)
      {
        InsideIsWithin(s.width, b.x, b.y, b.width, b.height, i);
      }
    }
  }

  lemma HandSplits(s: Screen, hand: seq<Box>, x: int, y: int)
    requires hand != []
    ensures InHand(s, hand, x, y)
       <==> (Clipped(s, hand[0]) && Within(x, y, hand[0].x, hand[0].y, hand[0].width, hand[0].height)) || InHand(s, hand[1..], x, y)
  {
    if InHand(s, hand, x, y) {
      var k :| 0 <= k < |hand| && Clipped(s, hand[k]) && Within(x, y, hand[k].x, hand[k].y, hand[k].width, hand[k].height);
      if k > 0 {
        assert hand[1..][k - 1] == hand[k];
      }
    }
    if InHand(s, hand[1..], x, y) {
      var k :| 0 <= k < |hand[1..]| && Clipped(s, hand[1..][k]) && Within(x, y, hand[1..][k].x, hand[1..][k].y, hand[1..][k].width, hand[1..][k].height);
      assert hand[k + 1] == hand[1..][k];
    }
  }

  /** Sending a rectangle repairs exactly the bytes that were waiting for it. */
  lemma SendExact(p: Pump)
    requires Inv(p) && p.hand != []
    ensures var after := Step(p, Send);
            && Inv(after) && after.view.size == p.view.size
            && (InStep(after) <==> InStep(p))
  {
    var s, b := p.screen, p.hand[0];
    var after := Step(p, Send);
    if p.view.size == SizeOf(s) {
      ShownAgrees(s, p.view, b);
      forall i | 0 <= i < |s.pixels|
        ensures (after.view.pixels[i] != s.pixels[i] ==> Pending(s, after.hand, i)) <==> (p.view.pixels[i] != s.pixels[i] ==> Pending(s, p.hand, i))
      {
        HandSplits(s, p.hand, PixelX(s.width, i), PixelY(s.width, i));
      }
    }
  }

  /** After a take, everything the renderer shows wrongly is in hand exactly when it could be repaired before. */
  lemma TakeExact(p: Pump)
    requires Inv(p) && p.hand == []
    ensures Inv(Step(p, Take))
    ensures InStep(Step(p, Take)) <==> Repairable(p)
  {
    var s := p.screen;
    TakeMoves(s, p.view.pixels);
    TakeMoves(s, Blank(SizeOf(s)));
  }

  // ---------------------------------------------------------------- every step

  lemma ResizedInv(p: Pump, w: U16, h: U16)
    requires Inv(p)
    ensures Inv(Step(p, Resize(w, h)))
  {
    ResizedValid(p.screen, w, h);
    TileLength(w, h);
    var (screen, outcome) := Resized(p.screen, w, h);
    if outcome == Changed {
      assert screen.pixels == Blank(Size(w, h));
    }
  }

  /** Every command, and every step of the pump, keeps the invariant of all runs. */
  lemma StepKeeps(p: Pump, c: Command)
    requires Inv(p)
    ensures Inv(Step(p, c))
  {
    var blank := Blank(SizeOf(p.screen));
    match c {
      case Resize(w, h) => ResizedInv(p, w, h);
      case Tell(_) =>
      case Notice =>
      case Refresh(_) => AllPending(p.screen, blank, []);
      case Take =>
        if p.hand == [] {
          TakeExact(p);
        }
      case Send =>
        if p.hand != [] {
          SendExact(p);
        }
      case _ =>
        DrawnValid(p.screen, c);
        if p.announced != SizeOf(p.screen) {
          DrawnTracked(p.screen, blank, [], c);
        }
    }
  }

  lemma MoreInHand(s: Screen, shown: seq<Byte>, hand: seq<Box>)
    requires Tracked(s, shown, [])
    ensures Tracked(s, shown, hand)
  {
    forall i | 0 <= i < |shown| && shown[i] != s.pixels[i] ensures Pending(s, hand, i) {
      assert Covered(s.dirty, PixelX(s.width, i), PixelY(s.width, i));
    }
  }

  lemma ResizeHeard(p: Pump, w: U16, h: U16)
    requires Inv(p) && Repairable(p)
    ensures Repairable(Step(p, Resize(w, h))) <==> Heard(p, Resize(w, h))
  {
    TileLength(w, h);
    var (screen, outcome) := Resized(p.screen, w, h);
    if outcome == Changed && p.view.size == Size(w, h) {
      assert screen.pixels == Blank(Size(w, h));
    }
  }

  lemma TellHeard(p: Pump, size: Size)
    requires Inv(p) && Repairable(p)
    ensures Repairable(Step(p, Tell(size))) <==> Heard(p, Tell(size))
  {
    if p.announced != SizeOf(p.screen) {
      MoreInHand(p.screen, Blank(SizeOf(p.screen)), p.hand);
    }
  }

  /** As long as the renderer can be repaired, a step leaves it so exactly when its guard holds. */
  lemma StepRepairable(p: Pump, c: Command)
    requires Inv(p) && Repairable(p)
    ensures Inv(Step(p, c))
    ensures Repairable(Step(p, c)) <==> Heard(p, c)
  {
    StepKeeps(p, c);
    match c {
      case Resize(w, h) => ResizeHeard(p, w, h);
      case Tell(size) => TellHeard(p, size);
      case Notice =>
        if p.announced != SizeOf(p.screen) {
          MoreInHand(p.screen, Blank(SizeOf(p.screen)), p.hand);
        }
      case Refresh(_) =>
        if p.view.size == SizeOf(p.screen) {
          AllPending(p.screen, Step(p, c).view.pixels, p.hand);
        }
      case Take =>
        if p.hand == [] {
          TakeExact(p);
        }
      case Send =>
        if p.hand != [] {
          SendExact(p);
        }
      case _ =>
        DrawnValid(p.screen, c);
        if InStep(p) {
          DrawnTracked(p.screen, p.view.pixels, p.hand, c);
        }
    }
  }

  // ---------------------------------------------------------------- runs

  /** The state after a run that starts in a state satisfying the invariant. */
  ghost function Run(p: Pump, commands: seq<Command>): (r: Pump)
    requires Inv(p)
    ensures Inv(r)
    decreases |commands|
  {
    if commands == [] then p
    else
      StepKeeps(p, commands[0]);
      Run(Step(p, commands[0]), commands[1..])
  }

  lemma {:induction false} RunThen(p: Pump, commands: seq<Command>, c: Command)
    requires Inv(p)
    ensures Run(p, commands + [c]) == Step(Run(p, commands), c)
    decreases |commands|
  {
    if commands == [] {
      StepKeeps(p, c);
      assert Run(Step(p, c), []) == Step(p, c);
    } else {
      StepKeeps(p, commands[0]);
      RunThen(Step(p, commands[0]), commands[1..], c);
      assert (commands + [c])[1..] == commands[1..] + [c];
    }
  }

  lemma ConnectedInv(size: Size)
    requires CheckedLen(size.width, size.height).Some?
    ensures Inv(Connected(size)) && InStep(Connected(size))
  {
    EmptyValid();
    ResizedValid(EMPTY_SCREEN, size.width, size.height);
    TileLength(size.width, size.height);
    assert Connected(size).screen.pixels == Blank(size);
  }

  /** The state after a run of a session that connected at `size`. */
  ghost function FromStart(size: Size, commands: seq<Command>): (p: Pump)
    requires CheckedLen(size.width, size.height).Some?
    ensures Inv(p)
  {
    ConnectedInv(size);
    Run(Connected(size), commands)
  }

  /** Every command of the run met its guard. */
  ghost predicate Kept(p: Pump, commands: seq<Command>)
    requires Inv(p)
    decreases |commands|
  {
    commands == [] || (Heard(p, commands[0]) && (StepKeeps(p, commands[0]); Kept(Step(p, commands[0]), commands[1..])))
  }

  /** Every command of a run from the start met its guard. */
  ghost predicate AllHeard(size: Size, commands: seq<Command>)
    requires CheckedLen(size.width, size.height).Some?
  {
    ConnectedInv(size);
    Kept(Connected(size), commands)
  }

  lemma {:induction false} KeptRepairable(p: Pump, commands: seq<Command>)
    requires Inv(p) && Repairable(p) && Kept(p, commands)
    ensures Repairable(Run(p, commands))
    decreases |commands|
  {
    if commands != [] {
      StepRepairable(p, commands[0]);
      KeptRepairable(Step(p, commands[0]), commands[1..]);
    }
  }

  /** The renderer shows the framebuffer. */
  predicate Shows(p: Pump) {
    p.view.size == SizeOf(p.screen) && p.view.pixels == p.screen.pixels
  }

  function Sends(n: nat): (r: seq<Command>)
    ensures |r| == n && forall k :: 0 <= k < n ==> r[k] == Send
  {
    seq(n, _ => Send)
  }

  /** Sending everything in hand empties it, leaves the framebuffer alone, and repairs what was in hand, no more. */
  lemma {:induction false} SendAll(p: Pump)
    requires Inv(p)
    ensures var r := Run(p, Sends(|p.hand|));
            && r.hand == [] && r.screen == p.screen && r.announced == p.announced && r.view.size == p.view.size
            && (InStep(r) <==> InStep(p))
    decreases |p.hand|
  {
    if p.hand != [] {
      SendExact(p);
      assert Sends(|p.hand|)[1..] == Sends(|p.hand| - 1);
      SendAll(Step(p, Send));
    }
  }

  /** What is in hand sent, the size checked, and the dirty list taken. */
  ghost function Refilled(p: Pump): (r: Pump)
    requires Inv(p)
    ensures Inv(r)
  {
    var idle := Run(p, Sends(|p.hand|));
    StepKeeps(idle, Take);
    Step(idle, Take)
  }

  /** One complete flush: finish what is in hand, check, take, send it all. */
  ghost function Flushed(p: Pump): (r: Pump)
    requires Inv(p)
    ensures Inv(r)
  {
    Run(Refilled(p), Sends(|Refilled(p).hand|))
  }

  /** In every state a run can reach, one flush makes the renderer show the framebuffer exactly when the
      renderer can be repaired, at most 8 frames having been needed for the take. */
  lemma FlushExact(p: Pump)
    requires Inv(p)
    ensures Shows(Flushed(p)) <==> Repairable(p)
    ensures |Refilled(p).hand| <= MAX_DIRTY_RECTS
    ensures Flushed(p).screen == p.screen.(dirty := []) && Flushed(p).hand == [] && Flushed(p).announced == SizeOf(p.screen)
  {
    SendAll(p);
    TakeExact(Run(p, Sends(|p.hand|)));
    SendAll(Refilled(p));
    var after := Flushed(p);
    if InStep(after) {
      forall i | 0 <= i < |after.view.pixels| ensures after.view.pixels[i] == after.screen.pixels[i] {
      }
    }
  }

  /** After any run whose resizes were all heard, one flush makes the renderer show the framebuffer. */
  lemma FlushRepairs(size: Size, commands: seq<Command>)
    requires CheckedLen(size.width, size.height).Some?
    requires AllHeard(size, commands)
    ensures Shows(Flushed(FromStart(size, commands)))
  {
    ConnectedInv(size);
    KeptRepairable(Connected(size), commands);
    FlushExact(FromStart(size, commands));
  }

  /** The guard is exact: after such a run and one more command, a flush makes the renderer show the
      framebuffer if and only if that command was heard too. */
  lemma FlushRepairsIff(size: Size, commands: seq<Command>, c: Command)
    requires CheckedLen(size.width, size.height).Some?
    requires AllHeard(size, commands)
    ensures Shows(Flushed(FromStart(size, commands + [c]))) <==> Heard(FromStart(size, commands), c)
  {
    ConnectedInv(size);
    KeptRepairable(Connected(size), commands);
    RunThen(Connected(size), commands, c);
    StepRepairable(FromStart(size, commands), c);
    FlushExact(FromStart(size, commands + [c]));
  }

  /** After any such run, once nothing is waiting to be announced or sent the renderer shows the framebuffer. */
  lemma QuietMeansEqual(size: Size, commands: seq<Command>)
    requires CheckedLen(size.width, size.height).Some?
    requires AllHeard(size, commands)
    ensures var p := FromStart(size, commands);
            p.announced == SizeOf(p.screen) && p.screen.dirty == [] && p.hand == [] ==> Shows(p)
  {
    ConnectedInv(size);
    KeptRepairable(Connected(size), commands);
    var p := FromStart(size, commands);
    if p.announced == SizeOf(p.screen) && p.screen.dirty == [] && p.hand == [] {
      forall i | 0 <= i < |p.view.pixels| ensures p.view.pixels[i] == p.screen.pixels[i] {
      }
    }
  }

  /** A refresh repairs whatever the renderer shows, after any run at all, if the renderer has the right
      size or is about to be told it; otherwise it cannot. */
  lemma RefreshRepairs(p: Pump, lost: seq<Byte>)
    requires Inv(p)
    ensures Inv(Step(p, Refresh(lost)))
    ensures Shows(Flushed(Step(p, Refresh(lost)))) <==> p.view.size == SizeOf(p.screen) || p.announced != SizeOf(p.screen)
  {
    StepKeeps(p, Refresh(lost));
    FlushExact(Step(p, Refresh(lost)));
    if p.view.size == SizeOf(p.screen) {
      AllPending(p.screen, Step(p, Refresh(lost)).view.pixels, p.hand);
    }
  }

  // ---------------------------------------------------------------- resizes that are not heard

  lemma RunOne(p: Pump, c: Command)
    requires Inv(p)
    ensures Run(p, [c]) == Step(p, c)
  {
    StepKeeps(p, c);
    assert Run(Step(p, c), []) == Step(p, c);
  }

  lemma RunTwo(p: Pump, c: Command, d: Command)
    requires Inv(p)
    ensures Inv(Step(p, c)) && Run(p, [c, d]) == Step(Step(p, c), d)
  {
    RunOne(p, c);
    RunThen(p, [c], d);
    assert [c] + [d] == [c, d];
  }

  lemma NothingToSend(p: Pump)
    requires Inv(p) && p.hand == [] && p.screen.dirty == [] && p.announced == SizeOf(p.screen)
    ensures Flushed(p).view == p.view
  {
    assert Run(p, Sends(0)) == p;
    assert Refilled(p) == Step(p, Take);
    assert Refilled(p).hand == [];
  }

  /** Away and back before the next check: the framebuffer is blanked, nothing is announced, and the
      renderer goes on showing what it showed, which is right only if that was blank. */
  lemma AwayAndBack(p: Pump, w: U16, h: U16)
    requires Inv(p) && Shows(p) && p.hand == [] && p.announced == SizeOf(p.screen)
    requires CheckedLen(w, h).Some? && Size(w, h) != SizeOf(p.screen)
    requires CheckedLen(p.screen.width, p.screen.height).Some?
    ensures var after := Run(p, [Resize(w, h), Resize(p.screen.width, p.screen.height)]);
            && after.screen.pixels == Blank(SizeOf(p.screen)) && Flushed(after).view == p.view
            && (Shows(Flushed(after)) <==> p.screen.pixels == Blank(SizeOf(p.screen)))
  {
    var after := Run(p, [Resize(w, h), Resize(p.screen.width, p.screen.height)]);
    RunTwo(p, Resize(w, h), Resize(p.screen.width, p.screen.height));
    TileLength(p.screen.width, p.screen.height);
    assert after.screen.pixels == Blank(SizeOf(p.screen));
    FlushExact(after);
    NothingToSend(after);
  }

  /** A reactivation announces its size without recording it. A size that comes back afterwards, before
      the next check, equals the recorded one: it is never announced, and the renderer keeps the wrong size. */
  lemma ReactivatedAndBack(size: Size, other: Size)
    requires CheckedLen(size.width, size.height).Some? && CheckedLen(other.width, other.height).Some? && other != size
    ensures var p := FromStart(size, [Resize(other.width, other.height), Tell(other), Resize(size.width, size.height)]);
            p.screen.width == size.width && p.screen.height == size.height && Flushed(p).view.size == other
  {
    ConnectedInv(size);
    var first, second, third := Resize(other.width, other.height), Tell(other), Resize(size.width, size.height);
    RunTwo(Connected(size), first, second);
    RunThen(Connected(size), [first, second], third);
    assert [first, second] + [third] == [first, second, third];
    NothingToSend(FromStart(size, [first, second, third]));
  }

  lemma OnePixel(s: Screen, image: seq<Byte>)
    requires Shaped(s) && s.width == s.height == 1 && |image| == 4
    ensures Pasted(s, Box(0, 0, 1, 1), image, 1, 0, 0) == image
  {
    forall i | 0 <= i < 4 ensures Pasted(s, Box(0, 0, 1, 1), image, 1, 0, 0)[i] == image[i] {
      assert Inside(i, 4, 0, 0, 4, 1);
    }
  }

  lemma PaintedPixel(s: Screen, red: Byte, green: Byte, blue: Byte)
    requires Shaped(s) && s.width == s.height == 1
    ensures Painted(s, 0, 0, 1, 1, red, green, blue).pixels == [red, green, blue, 255]
  {
    assert Clip(s, 0, 0, 1, 1) == Some(Box(0, 0, 1, 1));
    SolidFits([red, green, blue, 0xFF], 1, 1);
    assert Solid([red, green, blue, 0xFF], 0) == [];
    OnePixel(s, Solid([red, green, blue, 0xFF], 1));
  }

  /** Such a state is reached: a white pixel is flushed, and after the size went to 2 x 1 and back the
      renderer still shows it over a framebuffer that is blank. */
  lemma AwayAndBackReached()
    ensures var white := Flushed(FromStart(Size(1, 1), [Fill(0, 0, 1, 1, 255, 255, 255)]));
            var after := Run(white, [Resize(2, 1), Resize(1, 1)]);
            && after.screen.pixels == [0, 0, 0, 0]
            && Flushed(after).view.pixels == [255, 255, 255, 255]
  {
    ConnectedInv(Size(1, 1));
    var start, fill := Connected(Size(1, 1)), Fill(0, 0, 1, 1, 255, 255, 255);
    StepRepairable(start, fill);
    RunOne(start, fill);
    PaintedPixel(start.screen, 255, 255, 255);
    FlushExact(Step(start, fill));
    AwayAndBack(Flushed(Step(start, fill)), 2, 1);
  }
}
