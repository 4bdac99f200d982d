/** The objects behind `DamageProtocol`: the session entry with its framebuffer and damage queue
    (`RemoteDesktopSessionManager.swift`) and the view with its texture (`RemoteDesktopMetalView.swift`).
    Each method body is one lock section, or the sequence of lock sections of a whole Swift method. */
module SessionEntry {
  import opened Words
  import opened Raster
  import opened Pixels
  import opened DamageModel

  datatype CopyOutcome = NoBuffer | Stored | Refused

  /** `memset` to zero. */
  method Zero(buffer: array<Byte>)
    modifies buffer
    ensures buffer[..] == seq(buffer.Length, _ => 0)
  {
    for k := 0 to buffer.Length
      invariant forall j :: 0 <= j < k ==> buffer[j] == 0
    {
      buffer[k] := 0;
    }
  }

  class Entry {
    var desktopWidth: U16
    var desktopHeight: U16
    var framebuffer: array?<Byte>
    var framebufferSize: nat
    var generation: nat
    var damageQueue: seq<DamageRect>
    var fullDirty: bool

    ghost function Fb(): Frame
      reads this, framebuffer
    {
      if framebuffer == null then NoFrame
      else Frame(desktopWidth, desktopHeight, generation, framebuffer[..])
    }

    ghost function Dmg(): Damage
      reads this
    {
      Damage(damageQueue, fullDirty)
    }

    ghost predicate Ok()
      reads this, framebuffer
    {
      && GoodFrame(Fb())
      && (framebuffer == null ==> desktopWidth == 0 && desktopHeight == 0 && generation == 0)
      && (framebuffer != null ==> framebufferSize == framebuffer.Length && 1 <= generation)
    }

    constructor ()
      ensures Ok() && Fb() == NoFrame && Dmg() == Damage([], false)
    {
      desktopWidth, desktopHeight, framebuffer, framebufferSize, generation := 0, 0, null, 0, 0;
      damageQueue, fullDirty := [], false;
    }

    /** The framebuffer-lock section of `allocateFramebuffer`. */
    method AllocateLocked(width: U16, height: U16)
      requires Ok() && Allocatable(width, height)
      modifies `desktopWidth, `desktopHeight, `framebuffer, `framebufferSize, `generation, framebuffer
      ensures Ok() && Fb() == Allocated(old(Fb()), width, height)
      ensures framebuffer == old(framebuffer) || fresh(framebuffer)
    {
      ghost var was := Fb();
      var newSize := width * height * BYTES_PER_PIXEL;
      assert newSize == height * (width * BYTES_PER_PIXEL);
      var dimensionsChanged := desktopWidth != width || desktopHeight != height;
      if framebuffer == null || framebufferSize != newSize {
        framebuffer := new Byte[newSize](_ => 0);
        assert dimensionsChanged && framebuffer[..] == seq(newSize, _ => 0);
      } else if dimensionsChanged {
        Zero(framebuffer);
        assert framebuffer[..] == seq(newSize, _ => 0);
      }
      ghost var pixels := framebuffer[..];
      assert pixels == if dimensionsChanged then seq(newSize, _ => 0) else was.pixels;
      if dimensionsChanged || generation == 0 {
        generation := generation + 1;
      }
      framebufferSize, desktopWidth, desktopHeight := newSize, width, height;
      assert framebuffer[..] == pixels;
    }

    /** The damage-lock section of `markFullDirty`. */
    method MarkFullDirty()
      modifies `damageQueue, `fullDirty
      ensures Dmg() == FULL_DAMAGE
    {
      damageQueue, fullDirty := [], true;
    }

    method AllocateFramebuffer(width: U16, height: U16) returns (newGeneration: Option<nat>)
      requires Ok()
      modifies this, framebuffer
      ensures Ok()
      ensures newGeneration.Some? <==> Allocatable(width, height)
      ensures newGeneration.None? ==> Fb() == old(Fb()) && Dmg() == old(Dmg())
      ensures newGeneration.Some? ==> Fb() == Allocated(old(Fb()), width, height) && newGeneration.value == Fb().generation && Dmg() == FULL_DAMAGE
    {
      if width == 0 || height == 0 || width * height > MAX_PIXELS {
        return None;
      }
      AllocateLocked(width, height);
      newGeneration := Some(generation);
      MarkFullDirty();
    }

    /** The pixel part of `copyFrame`, under the framebuffer lock. */
    method CopyLocked(r: DamageRect, bytes: seq<Byte>) returns (outcome: CopyOutcome)
      requires Ok()
      modifies framebuffer
      ensures Ok()
      ensures outcome == if old(Fb()).NoFrame? then NoBuffer else if Accepts(old(Fb()), r, bytes) then Stored else Refused
      ensures Fb() == if outcome == Stored then CopiedFrame(old(Fb()), r, bytes) else old(Fb())
    {
      if framebuffer == null {
        return NoBuffer;
      }
      var srcStride := r.width * BYTES_PER_PIXEL;
      assert srcStride * r.height == r.height * srcStride;
      if r.x + r.width > desktopWidth || r.y + r.height > desktopHeight || |bytes| < srcStride * r.height {
        return Refused;
      }
      if r.width != 0 {
        InBoundsFits(Fb(), r);
        AcceptedFits(r, bytes);
        BlitRows(framebuffer, desktopWidth * BYTES_PER_PIXEL, r.x * BYTES_PER_PIXEL, r.y, srcStride, r.height, bytes, srcStride, 0, 0);
      }
      return Stored;
    }

    /** The damage-lock section of `pushDamage`. */
    method PushDamage(r: DamageRect)
      modifies `damageQueue, `fullDirty
      ensures Dmg() == Pushed(old(Dmg()), r)
    {
      if fullDirty {
        return;
      }
      if |damageQueue| >= MAX_DAMAGE_RECTS {
        damageQueue, fullDirty := [], true;
      } else {
        damageQueue := damageQueue + [r];
      }
    }

    method CopyFrame(r: DamageRect, bytes: seq<Byte>)
      requires Ok()
      modifies framebuffer, `damageQueue, `fullDirty
      ensures Ok()
      ensures if old(Fb()).NoFrame? then Fb() == old(Fb()) && Dmg() == old(Dmg())
              else if Accepts(old(Fb()), r, bytes) then Fb() == CopiedFrame(old(Fb()), r, bytes) && Dmg() == Pushed(old(Dmg()), r)
              else Fb() == old(Fb()) && Dmg() == FULL_DAMAGE
    {
      var outcome := CopyLocked(r, bytes);
      match outcome {
        case NoBuffer =>
        case Refused => MarkFullDirty();
        case Stored => PushDamage(r);
      }
    }

    /** The damage-lock section of `drainDamage`. */
    method DrainDamage() returns (batch: Option<Batch>)
      modifies `damageQueue, `fullDirty
      ensures (Dmg(), batch) == Drained(old(Dmg()))
    {
      if fullDirty {
        fullDirty, damageQueue := false, [];
        return Some(Batch(true, []));
      }
      if damageQueue == [] {
        return None;
      }
      batch := Some(Batch(false, damageQueue));
      damageQueue := [];
    }
  }

  /** Some rectangle of the list is not empty and fits the framebuffer. */
  ghost predicate SomeFits(fb: Frame, rects: seq<DamageRect>) {
    exists k :: 0 <= k < |rects| && 0 < rects[k].width && 0 < rects[k].height && InBounds(fb, rects[k])
  }

  /** What an upload of one batch does to the texture and the damage: nothing without a framebuffer; a full
      refresh asked for when a texture is needed and cannot be created; otherwise the batch uploaded. */
  ghost predicate UploadOutcome(tex: Frame, fb: Frame, damage: Damage, batch: Batch, created: bool, blank: seq<Byte>,
                                texAfter: Frame, damageAfter: Damage, uploaded: bool)
    requires GoodFrame(tex) && GoodFrame(fb)
  {
    if fb.NoFrame? then texAfter == tex && damageAfter == damage && !uploaded
    else if !SameShape(tex, fb) && !created then texAfter == tex && damageAfter == FULL_DAMAGE && !uploaded
    else
      && |blank| == |fb.pixels| && damageAfter == damage
      && texAfter == Uploaded(tex, fb, batch, blank)
      && (uploaded <==> batch.full || !SameShape(tex, fb) || SomeFits(fb, batch.rects))
  }

  class View {
    var texture: array?<Byte>
    var desktopWidth: U16
    var desktopHeight: U16
    var desktopGeneration: nat

    ghost function Tex(): Frame
      reads this, texture
    {
      if texture == null then NoFrame
      else Frame(desktopWidth, desktopHeight, desktopGeneration, texture[..])
    }

    constructor ()
      ensures Tex() == NoFrame
    {
      texture, desktopWidth, desktopHeight, desktopGeneration := null, 0, 0, 0;
    }

    /** The framebuffer-lock section of `uploadDirtyRegions`. `created` says whether the device could
        create a texture, had one been needed; `blank` is what a new texture contained. */
    method UploadLocked(entry: Entry, batch: Batch, created: bool) returns (uploaded: bool, ghost blank: seq<Byte>)
      requires entry.Ok() && GoodFrame(Tex())
      requires texture != null ==> texture != entry.framebuffer
      modifies this, texture, entry`damageQueue, entry`fullDirty
      ensures entry.Ok() && entry.Fb() == old(entry.Fb()) && GoodFrame(Tex())
      ensures UploadOutcome(old(Tex()), entry.Fb(), old(entry.Dmg()), batch, created, blank, Tex(), entry.Dmg(), uploaded)
    {
      uploaded, blank := false, [];
      if entry.framebuffer == null {
        return;
      }
      var changed := texture == null || desktopGeneration != entry.generation
                     || desktopWidth != entry.desktopWidth || desktopHeight != entry.desktopHeight;
      assert changed <==> !SameShape(Tex(), entry.Fb());
      if changed && !created {
        entry.MarkFullDirty();
        return;
      }
      blank := entry.Fb().pixels;
      if changed {
        texture := new Byte[entry.framebuffer.Length];
        desktopWidth, desktopHeight, desktopGeneration := entry.desktopWidth, entry.desktopHeight, entry.generation;
        blank := texture[..];
      }
      ghost var target := Tex();
      assert target == if changed then entry.Fb().(pixels := blank) else old(Tex());
      var rects := if batch.full || changed then [DamageRect(0, 0, entry.desktopWidth, entry.desktopHeight)] else batch.rects;
      uploaded := UploadRects(entry, rects);
    }

    /** The loop over the rectangles: those that are empty or do not fit are skipped. */
    method UploadRects(entry: Entry, rects: seq<DamageRect>) returns (uploaded: bool)
      requires entry.Ok() && GoodFrame(Tex()) && SameShape(Tex(), entry.Fb())
      requires texture != entry.framebuffer
      modifies texture
      ensures entry.Ok() && entry.Fb() == old(entry.Fb())
      ensures Tex() == ReplacedAll(old(Tex()), entry.Fb(), rects)
      ensures uploaded <==> SomeFits(entry.Fb(), rects)
    {
      ghost var was := Tex();
      ghost var fb := entry.Fb();
      uploaded := false;
      for k := 0 to |rects|
        invariant entry.Fb() == fb
        invariant Tex() == ReplacedAll(was, fb, rects[..k])
        invariant uploaded <==> exists j :: 0 <= j < k && 0 < rects[j].width && 0 < rects[j].height && InBounds(fb, rects[j])
      {
        var r := rects[k];
        assert rects[..k + 1][..k] == rects[..k];
        if r.width == 0 || r.height == 0 || r.x + r.width > entry.desktopWidth || r.y + r.height > entry.desktopHeight {
          continue;
        }
        InBoundsFits(fb, r);
        InBoundsFits(Tex(), r);
        var stride := entry.desktopWidth * BYTES_PER_PIXEL;
        BlitRows(texture, stride, r.x * BYTES_PER_PIXEL, r.y, r.width * BYTES_PER_PIXEL, r.height,
                 entry.framebuffer[..], stride, r.x * BYTES_PER_PIXEL, r.y);
        uploaded := true;
      }
      assert rects[..|rects|] == rects;
    }

    /** `uploadDirtyRegions` when nothing comes between its two lock sections. */
    method UploadDirtyRegions(entry: Entry, created: bool) returns (uploaded: bool, ghost blank: seq<Byte>)
      requires entry.Ok() && GoodFrame(Tex())
      requires texture != null ==> texture != entry.framebuffer
      modifies this, texture, entry`damageQueue, entry`fullDirty
      ensures entry.Ok() && entry.Fb() == old(entry.Fb()) && GoodFrame(Tex())
      ensures var (rest, batch) := Drained(old(entry.Dmg()));
              if batch.None? then Tex() == old(Tex()) && entry.Dmg() == old(entry.Dmg()) && !uploaded
              else UploadOutcome(old(Tex()), entry.Fb(), rest, batch.value, created, blank, Tex(), entry.Dmg(), uploaded)
      ensures old(entry.fullDirty) && entry.Fb().Frame? && created ==> uploaded && Tex() == entry.Fb()
    {
      var batch := entry.DrainDamage();
      if batch.None? {
        return false, [];
      }
      ghost var was := Tex();
      uploaded, blank := UploadLocked(entry, batch.value, created);
      if batch.value.full && entry.Fb().Frame? && created {
        FullUpload(was, entry.Fb(), batch.value, blank);
      }
    }
  }
}
