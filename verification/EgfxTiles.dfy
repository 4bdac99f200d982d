/** The tile cache over whole runs: what a stored slot holds, and what restoring it paints
    (`cache_store`, `cache_restore` and `cache_evict` in `services/rdp-core/src/egfx_surface.rs`). */
module EgfxTiles {
  import opened Words
  import opened Raster
  import opened EgfxModel
  import opened EgfxRuns
  import opened EgfxPixels
  import opened Pixels

  /** What a slot holds, if anything. */
  function Held(s: Screen, slot: U16): Option<Tile> {
    if slot in s.cache then Some(s.cache[slot]) else None
  }

  /** How much of `length` from `at` lies below `limit`, in unbounded integers. */
  function Part(at: nat, length: nat, limit: nat): nat {
    Max(Min(at + length, limit) - at, 0)
  }

  /** The tile has the size and the pixels of the part of the rectangle that `s` has on its screen. */
  ghost predicate ShowsPart(t: Tile, s: Screen, x: U16, y: U16, w: U16, h: U16) {
    && 0 < t.width == Part(x, w, s.width)
    && 0 < t.height == Part(y, h, s.height)
    && Fits(|s.pixels|, Stride(s), x * BYTES_PER_PIXEL, y, t.width * BYTES_PER_PIXEL, t.height)
    && t.pixels == Rows(s.pixels, Stride(s), x * BYTES_PER_PIXEL, y, t.width * BYTES_PER_PIXEL, t.height)
  }

  /** After a store that returned true the slot shows the rectangle exactly when some of the rectangle
      is on the screen; otherwise the slot is what it was. */
  lemma StoredHolds(s: Screen, slot: U16, x: U16, y: U16, w: U16, h: U16)
    requires Valid(s) && Stored(s, slot, x, y, w, h).1
    ensures var tile := Held(Stored(s, slot, x, y, w, h).0, slot);
            if Clip(s, x, y, w, h).Some? then tile.Some? && ShowsPart(tile.value, s, x, y, w, h)
            else tile == Held(s, slot) && !(tile.Some? && ShowsPart(tile.value, s, x, y, w, h))
  {
    ClipIsClipped(s, x, y, w, h);
    var r := Clip(s, x, y, w, h);
    if r.Some? {
      ClippedFits(s, r.value);
    }
  }

  // ---------------------------------------------------------------- slots that are left alone

  /** In state `p` the command leaves alone what slot `slot` holds. */
  ghost predicate Spares(p: Pump, c: Command, slot: U16)
    requires Valid(p.screen)
  {
    match c
    case Store(other, x, y, w, h) => other != slot || Stored(p.screen, other, x, y, w, h).0 == p.screen
    case Evict(other) => other != slot || slot !in p.screen.cache
    case Resize(w, h) => Resized(p.screen, w, h).1 != Changed
    case _ => true
  }

  /** Every command of the run leaves it alone. */
  ghost predicate SparesAll(p: Pump, commands: seq<Command>, slot: U16)
    requires Inv(p)
    decreases |commands|
  {
    commands == [] || (Spares(p, commands[0], slot) && (StepKeeps(p, commands[0]); SparesAll(Step(p, commands[0]), commands[1..], slot)))
  }

  lemma SparedStep(p: Pump, c: Command, slot: U16)
    requires Inv(p) && Spares(p, c, slot)
    ensures Held(Step(p, c).screen, slot) == Held(p.screen, slot)
    ensures SameShape(p.screen, Step(p, c).screen)
  {
    DrawnValid(p.screen, c);
  }

  lemma {:induction false} SparedSlot(p: Pump, commands: seq<Command>, slot: U16)
    requires Inv(p) && SparesAll(p, commands, slot)
    ensures Held(Run(p, commands).screen, slot) == Held(p.screen, slot)
    ensures SameShape(p.screen, Run(p, commands).screen)
    decreases |commands|
  {
    if commands != [] {
      StepKeeps(p, commands[0]);
      SparedStep(p, commands[0], slot);
      SparedSlot(Step(p, commands[0]), commands[1..], slot);
    }
  }

  // ---------------------------------------------------------------- storing, and restoring later

  /** The state after a store and a run. */
  ghost function Later(p: Pump, slot: U16, x: U16, y: U16, w: U16, h: U16, commands: seq<Command>): (r: Pump)
    requires Inv(p)
    ensures Inv(r)
  {
    StepKeeps(p, Store(slot, x, y, w, h));
    Run(Step(p, Store(slot, x, y, w, h)), commands)
  }

  ghost predicate KeptSlot(p: Pump, slot: U16, x: U16, y: U16, w: U16, h: U16, commands: seq<Command>)
    requires Inv(p)
  {
    StepKeeps(p, Store(slot, x, y, w, h));
    SparesAll(Step(p, Store(slot, x, y, w, h)), commands, slot)
  }

  /** After a store that returned true and any run that leaves the slot alone, the slot shows what the
      screen had of the rectangle at the store, if and only if it had any of it; if not, the slot is what
      it was before the store: an older tile, or unknown. */
  lemma SlotShowsSourceIff(p: Pump, slot: U16, x: U16, y: U16, w: U16, h: U16, commands: seq<Command>)
    requires Inv(p) && Stored(p.screen, slot, x, y, w, h).1
    requires KeptSlot(p, slot, x, y, w, h, commands)
    ensures var tile := Held(Later(p, slot, x, y, w, h, commands).screen, slot);
            && (tile.Some? && ShowsPart(tile.value, p.screen, x, y, w, h) <==> Clip(p.screen, x, y, w, h).Some?)
            && (Clip(p.screen, x, y, w, h).None? ==> tile == Held(p.screen, slot))
  {
    StepKeeps(p, Store(slot, x, y, w, h));
    StoredHolds(p.screen, slot, x, y, w, h);
    SparedSlot(Step(p, Store(slot, x, y, w, h)), commands, slot);
  }

  /** Whatever is drawn, taken or sent in between, restoring a slot pastes the pixels the screen showed
      when the slot was stored: the result is the copy of the old screen's rectangle. */
  lemma RestorePaintsStoredPixels(p: Pump, slot: U16, srcX: U16, srcY: U16, w: U16, h: U16,
                                  commands: seq<Command>, dstX: U16, dstY: U16)
    requires Inv(p) && Clip(p.screen, srcX, srcY, w, h).Some?
    requires Stored(p.screen, slot, srcX, srcY, w, h).1
    requires KeptSlot(p, slot, srcX, srcY, w, h, commands)
    ensures var source := Clip(p.screen, srcX, srcY, w, h).value;
            var later := Later(p, slot, srcX, srcY, w, h, commands).screen;
            var r := Restored(later, slot, dstX, dstY);
            && r.1
            && match Clip(later, dstX, dstY, source.width, source.height)
               case None => r.0 == later
               case Some(b) =>
                 && Clipped(later, b)
                 && Fits(|p.screen.pixels|, p.screen.width * BYTES_PER_PIXEL, srcX * BYTES_PER_PIXEL, srcY, b.width * BYTES_PER_PIXEL, b.height)
                 && r.0 == Draw(later, b, Pasted(later, b, p.screen.pixels, p.screen.width, srcX, srcY))
  {
    var s := p.screen;
    StepKeeps(p, Store(slot, srcX, srcY, w, h));
    ClipIsClipped(s, srcX, srcY, w, h);
    var source := Clip(s, srcX, srcY, w, h).value;
    var stored := Step(p, Store(slot, srcX, srcY, w, h));
    assert Held(stored.screen, slot) == Some(Tile(source.width, source.height, Packed(s, source)));
    SparedSlot(stored, commands, slot);
    var later := Run(stored, commands).screen;
    ClipIsClipped(later, dstX, dstY, source.width, source.height);
    var r := Clip(later, dstX, dstY, source.width, source.height);
    if r.Some? {
      var b := r.value;
      ClippedFits(s, source);
      ClippedFits(later, b);
      FromPacked(later.pixels, Stride(later), b.x * BYTES_PER_PIXEL, b.y, b.width * BYTES_PER_PIXEL, b.height,
                 s.pixels, Stride(s), srcX * BYTES_PER_PIXEL, srcY, source.width * BYTES_PER_PIXEL, source.height);
    }
  }

  /** After an off-screen store, which returns true, restoring is restoring what the slot held before:
      it fails for a slot that held nothing, and paints the older tile otherwise. */
  lemma OffScreenStoreRestores(p: Pump, slot: U16, x: U16, y: U16, w: U16, h: U16,
                               commands: seq<Command>, dstX: U16, dstY: U16)
    requires Inv(p) && Clip(p.screen, x, y, w, h).None?
    requires KeptSlot(p, slot, x, y, w, h, commands)
    ensures Stored(p.screen, slot, x, y, w, h).1
    ensures var later := Later(p, slot, x, y, w, h, commands).screen;
            var r := Restored(later, slot, dstX, dstY);
            && (r.1 <==> slot in p.screen.cache)
            && (slot !in p.screen.cache ==> r.0 == later)
            && (slot in p.screen.cache ==>
                  var tile := p.screen.cache[slot];
                  GoodTile(tile) && r.0.pixels == PlaceAt(later, dstX, dstY, tile.width, tile.height, tile.pixels))
  {
    SlotShowsSourceIff(p, slot, x, y, w, h, commands);
    var later := Later(p, slot, x, y, w, h, commands).screen;
    if slot in p.screen.cache {
      RestoredIsPlaceAt(later, slot, dstX, dstY);
    }
  }

  // ---------------------------------------------------------------- evicting, and restoring later

  /** In state `p` the command puts no tile into slot `slot`. */
  ghost predicate FillsNot(p: Pump, c: Command, slot: U16)
    requires Valid(p.screen)
  {
    c.Store? && c.slot == slot ==> Stored(p.screen, slot, c.srcX, c.srcY, c.w, c.h).0 == p.screen
  }

  ghost predicate NeverFilled(p: Pump, commands: seq<Command>, slot: U16)
    requires Inv(p)
    decreases |commands|
  {
    commands == [] || (FillsNot(p, commands[0], slot) && (StepKeeps(p, commands[0]); NeverFilled(Step(p, commands[0]), commands[1..], slot)))
  }

  lemma {:induction false} UnknownStays(p: Pump, commands: seq<Command>, slot: U16)
    requires Inv(p) && slot !in p.screen.cache && NeverFilled(p, commands, slot)
    ensures slot !in Run(p, commands).screen.cache
    decreases |commands|
  {
    if commands != [] {
      StepKeeps(p, commands[0]);
      UnknownStep(p, commands[0], slot);
      UnknownStays(Step(p, commands[0]), commands[1..], slot);
    }
  }

  lemma UnknownStep(p: Pump, c: Command, slot: U16)
    requires Inv(p) && slot !in p.screen.cache && FillsNot(p, c, slot)
    ensures slot !in Step(p, c).screen.cache
  {
  }

  /** After an evict, and any run in which no store puts a tile into the slot, restoring the slot fails and
      draws nothing, wherever and after whatever draws, stores, evicts and resizes. */
  lemma EvictedIsGone(p: Pump, slot: U16, commands: seq<Command>, x: U16, y: U16)
    requires Inv(p)
    requires Inv(Step(p, Evict(slot))) && NeverFilled(Step(p, Evict(slot)), commands, slot)
    ensures var later := Run(Step(p, Evict(slot)), commands).screen;
            Restored(later, slot, x, y) == (later, false)
  {
    EvictedForgets(p.screen, slot);
    UnknownStays(Step(p, Evict(slot)), commands, slot);
  }

  /** So it is after a change of size, for every slot. */
  lemma ResizedIsGone(p: Pump, slot: U16, w: U16, h: U16, commands: seq<Command>, x: U16, y: U16)
    requires Inv(p) && Resized(p.screen, w, h).1 == Changed
    requires Inv(Step(p, Resize(w, h))) && NeverFilled(Step(p, Resize(w, h)), commands, slot)
    ensures var later := Run(Step(p, Resize(w, h)), commands).screen;
            Restored(later, slot, x, y) == (later, false)
  {
    ResizedMeans(p.screen, w, h);
    UnknownStays(Step(p, Resize(w, h)), commands, slot);
  }

  lemma StoredPixel(s: Screen, slot: U16)
    requires Valid(s) && s.width == s.height == 1 && s.cache == map[]
    ensures Stored(s, slot, 0, 0, 1, 1).1
    ensures Stored(s, slot, 0, 0, 1, 1).0.cache == map[slot := Tile(1, 1, s.pixels)]
  {
    assert Clip(s, 0, 0, 1, 1) == Some(Box(0, 0, 1, 1));
    assert Rows(s.pixels, 4, 0, 0, 4, 0) == [];
    assert Packed(s, Box(0, 0, 1, 1)) == s.pixels;
  }

  lemma RestoredPixel(s: Screen, slot: U16, image: seq<Byte>)
    requires Valid(s) && s.width == s.height == 1 && |image| == 4
    requires Held(s, slot) == Some(Tile(1, 1, image))
    ensures Restored(s, slot, 0, 0).0.pixels == image && Restored(s, slot, 0, 0).1
  {
    assert Clip(s, 0, 0, 1, 1) == Some(Box(0, 0, 1, 1));
    OnePixel(s, image);
  }

  /** Such a state is reached: slot 7 holds a white tile, the screen has turned black since, a store from
      beside the screen returns true, and restoring the slot paints white. */
  lemma OlderTileReached()
    ensures var p := FromStart(Size(1, 1), [Fill(0, 0, 1, 1, 255, 255, 255), Store(7, 0, 0, 1, 1), Fill(0, 0, 1, 1, 0, 0, 0)]);
            var stored := Stored(p.screen, 7, 1, 0, 1, 1);
            && p.screen.pixels == [0, 0, 0, 255]
            && stored.1 && Valid(stored.0)
            && Restored(stored.0, 7, 0, 0).0.pixels == [255, 255, 255, 255]
  {
    ConnectedInv(Size(1, 1));
    var start := Connected(Size(1, 1));
    var white, store, black := Fill(0, 0, 1, 1, 255, 255, 255), Store(7, 0, 0, 1, 1), Fill(0, 0, 1, 1, 0, 0, 0);
    RunTwo(start, white, store);
    RunThen(start, [white, store], black);
    assert [white, store] + [black] == [white, store, black];
    var painted := Step(start, white);
    var kept := Step(painted, store);
    PaintedPixel(start.screen, 255, 255, 255);
    DrawnValid(start.screen, white);
    StoredPixel(painted.screen, 7);
    StoredValid(painted.screen, 7, 0, 0, 1, 1);
    PaintedPixel(kept.screen, 0, 0, 0);
    DrawnValid(kept.screen, black);
    RestoredPixel(Step(kept, black).screen, 7, [255, 255, 255, 255]);
  }
}
