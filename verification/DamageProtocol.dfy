/** All interleavings of the session worker and the main thread over the framebuffer lock and the
    damage lock. One step is one lock section:

    - the worker allocates under the framebuffer lock and marks everything dirty afterwards, under the
      damage lock only;
    - the worker copies a frame under the framebuffer lock and, still holding it, takes the damage lock
      to queue the rectangle (or to mark everything when the frame is refused);
    - the main thread drains the queue under the damage lock and then, separately, takes the framebuffer
      lock to upload. */
module DamageProtocol {
  import opened Words
  import opened DamageModel
  import opened Pixels

  datatype Worker =
    | Resting
    | MustMark                     // allocated, framebuffer lock released, mark-full still to come
    | Copied(rect: DamageRect)     // pixels written, framebuffer lock held, damage still to be queued
    | Refusing                     // frame refused, framebuffer lock held, mark-full still to come

  datatype Main =
    | Free
    | InHand(batch: Batch)         // drained, framebuffer lock not yet taken

  datatype Session = Session(fb: Frame, damage: Damage, texture: Frame, worker: Worker, main: Main)

  const START := Session(NoFrame, Damage([], false), NoFrame, Resting, Free)

  datatype Event =
    | Allocate(width: U16, height: U16)
    | MarkAfterAllocate
    | CopyFrame(rect: DamageRect, bytes: seq<Byte>)
    | FinishCopy
    | Attach(texture: Frame)       // a view, with whatever texture it has, turns to this session and asks for a full sync
    | Drain
    | Upload(blank: seq<Byte>, created: bool)

  predicate FramebufferLockFree(s: Session) {
    s.worker.Resting? || s.worker.MustMark?
  }

  /** An event whose thread is elsewhere, or whose lock is taken, cannot happen and changes nothing. */
  ghost function Step(s: Session, e: Event): Session
    requires Inv(s)
  {
    match e
    case Allocate(width, height) =>
      if s.worker.Resting? && Allocatable(width, height)
      then s.(fb := Allocated(s.fb, width, height), worker := MustMark) else s
    case MarkAfterAllocate =>
      if s.worker.MustMark? then s.(damage := FULL_DAMAGE, worker := Resting) else s
    case CopyFrame(rect, bytes) =>
      if !s.worker.Resting? || s.fb.NoFrame? then s
      else if Accepts(s.fb, rect, bytes) then s.(fb := CopiedFrame(s.fb, rect, bytes), worker := Copied(rect))
      else s.(worker := Refusing)
    case FinishCopy =>
      if s.worker.Copied? then s.(damage := Pushed(s.damage, s.worker.rect), worker := Resting)
      else if s.worker.Refusing? then s.(damage := FULL_DAMAGE, worker := Resting)
      else s
    case Attach(texture) =>
      if s.main.Free? && GoodFrame(texture) then s.(texture := texture, damage := FULL_DAMAGE) else s
    case Drain =>
      if s.main.Free? then
        var (damage, batch) := Drained(s.damage);
        s.(damage := damage, main := if batch.Some? then InHand(batch.value) else Free)
      else s
    case Upload(blank, created) =>
      if !s.main.InHand? || !FramebufferLockFree(s) then s
      else if s.fb.NoFrame? then s.(main := Free)
      else if !SameShape(s.texture, s.fb) && !created then s.(damage := FULL_DAMAGE, main := Free)
      else if |blank| != |s.fb.pixels| then s
      else s.(texture := Uploaded(s.texture, s.fb, s.main.batch, blank), main := Free)
  }

  // ---------------------------------------------------------------- the invariant

  /** Everything will be uploaded: a full mark is recorded, owed by the worker, or in hand. */
  predicate FullPending(s: Session) {
    s.damage.full || s.worker.MustMark? || s.worker.Refusing? || (s.main.InHand? && s.main.batch.full)
  }

  /** Byte `i` lies in a rectangle that is queued, in hand, or about to be queued. */
  ghost predicate RectPending(s: Session, i: nat)
    requires s.fb.Frame? && 0 < s.fb.width
  {
    || HitByAny(s.fb, s.damage.queue, i)
    || (s.main.InHand? && HitByAny(s.fb, s.main.batch.rects, i))
    || (s.worker.Copied? && InBounds(s.fb, s.worker.rect) && Hits(s.fb, s.worker.rect, i))
  }

  ghost predicate Inv(s: Session) {
    && GoodFrame(s.fb) && GoodFrame(s.texture)
    && |s.damage.queue| <= MAX_DAMAGE_RECTS && (s.damage.full ==> s.damage.queue == [])
    && (s.worker.Copied? ==> InBounds(s.fb, s.worker.rect))
    && (s.worker.Copied? || s.worker.Refusing? ==> s.fb.Frame?)
    && (s.fb.Frame? && !FullPending(s) ==>
          && SameShape(s.texture, s.fb)
          && forall i :: 0 <= i < |s.fb.pixels| && |s.texture.pixels| == |s.fb.pixels| && s.texture.pixels[i] != s.fb.pixels[i] ==>
               RectPending(s, i))
  }

  lemma SameShapeLength(a: Frame, b: Frame)
    requires SameShape(a, b) && GoodFrame(a) && GoodFrame(b)
    ensures |a.pixels| == |b.pixels|
  {
  }

  /** Writing pixels without yet having queued the damage leaves every stale byte accounted for. */
  lemma CopyKeeps(s: Session, rect: DamageRect, bytes: seq<Byte>)
    requires Inv(s) && s.worker.Resting? && s.fb.Frame? && Accepts(s.fb, rect, bytes)
    ensures Inv(Step(s, CopyFrame(rect, bytes)))
  {
    var t := Step(s, CopyFrame(rect, bytes));
    InBoundsFits(s.fb, rect);
    if !FullPending(t) {
      assert !FullPending(s);
      SameShapeLength(s.texture, s.fb);
      forall i | 0 <= i < |t.fb.pixels| && t.texture.pixels[i] != t.fb.pixels[i] ensures RectPending(t, i) {
        HitsIsInside(s.fb, rect, i);
        if !Hits(s.fb, rect, i) {
          assert t.fb.pixels[i] == s.fb.pixels[i];
          assert RectPending(s, i);
          SameHits(s.fb, t.fb, s.damage.queue, i);
          if s.main.InHand? {
            SameHits(s.fb, t.fb, s.main.batch.rects, i);
          }
        }
      }
    }
  }

  lemma SameHits(a: Frame, b: Frame, rects: seq<DamageRect>, i: nat)
    requires SameShape(a, b) && 0 < a.width
    ensures HitByAny(a, rects, i) <==> HitByAny(b, rects, i)
  {
    if HitByAny(a, rects, i) {
      var k :| 0 <= k < |rects| && InBounds(a, rects[k]) && Hits(a, rects[k], i);
      assert InBounds(b, rects[k]) && Hits(b, rects[k], i);
    }
    if HitByAny(b, rects, i) {
      var k :| 0 <= k < |rects| && InBounds(b, rects[k]) && Hits(b, rects[k], i);
      assert InBounds(a, rects[k]) && Hits(a, rects[k], i);
    }
  }

  /** Queueing a rectangle, or overflowing to a full mark, takes over what the worker owed. */
  lemma FinishCopyKeeps(s: Session)
    requires Inv(s)
    ensures Inv(Step(s, FinishCopy))
  {
    var t := Step(s, FinishCopy);
    if s.worker.Copied? && s.fb.Frame? && !FullPending(t) {
      var queue := s.damage.queue + [s.worker.rect];
      forall i | 0 <= i < |s.fb.pixels| && |s.texture.pixels| == |s.fb.pixels| && s.texture.pixels[i] != s.fb.pixels[i]
        ensures RectPending(t, i)
      {
        assert RectPending(s, i);
        if HitByAny(s.fb, s.damage.queue, i) {
          var k :| 0 <= k < |s.damage.queue| && InBounds(s.fb, s.damage.queue[k]) && Hits(s.fb, s.damage.queue[k], i);
          assert InBounds(s.fb, queue[k]) && Hits(s.fb, queue[k], i);
        } else if s.worker.Copied? && InBounds(s.fb, s.worker.rect) && Hits(s.fb, s.worker.rect, i) {
          assert InBounds(s.fb, queue[|queue| - 1]) && Hits(s.fb, queue[|queue| - 1], i);
        }
      }
    }
  }

  /** Draining moves the queue into the main thread's hand, whatever the worker is in the middle of. */
  lemma DrainKeeps(s: Session)
    requires Inv(s)
    ensures Inv(Step(s, Drain))
  {
    var t := Step(s, Drain);
    if s.main.Free? && s.fb.Frame? && !FullPending(t) {
      forall i | 0 <= i < |s.fb.pixels| && |s.texture.pixels| == |s.fb.pixels| && s.texture.pixels[i] != s.fb.pixels[i]
        ensures RectPending(t, i)
      {
        assert RectPending(s, i);
      }
    }
  }

  /** An upload that is not full repairs exactly the rectangles in hand; later damage stays queued. */
  lemma UploadKeeps(s: Session, blank: seq<Byte>, created: bool)
    requires Inv(s)
    ensures Inv(Step(s, Upload(blank, created)))
  {
    var t := Step(s, Upload(blank, created));
    if s.main.InHand? && FramebufferLockFree(s) && s.fb.Frame? && |blank| == |s.fb.pixels| && (created || SameShape(s.texture, s.fb)) {
      if s.main.batch.full || !SameShape(s.texture, s.fb) {
        FullUpload(s.texture, s.fb, s.main.batch, blank);
      } else if !FullPending(t) {
        SameShapeLength(s.texture, s.fb);
        forall i | 0 <= i < |s.fb.pixels| && |t.texture.pixels| == |s.fb.pixels| && t.texture.pixels[i] != s.fb.pixels[i]
          ensures RectPending(t, i)
        {
          ReplacedAllAt(s.texture, s.fb, s.main.batch.rects, i);
          assert RectPending(s, i);
        }
      }
    }
  }

  lemma StepKeeps(s: Session, e: Event)
    requires Inv(s)
    ensures Inv(Step(s, e))
  {
    match e {
      case CopyFrame(rect, bytes) =>
        if s.worker.Resting? && s.fb.Frame? && Accepts(s.fb, rect, bytes) {
          CopyKeeps(s, rect, bytes);
        }
      case FinishCopy => FinishCopyKeeps(s);
      case Drain => DrainKeeps(s);
      case Upload(blank, created) => UploadKeeps(s, blank, created);
      case _ =>
    }
  }

  // ---------------------------------------------------------------- runs

  ghost function Run(s: Session, events: seq<Event>): (r: Session)
    requires Inv(s)
    ensures Inv(r)
    decreases |events|
  {
    if events == [] then s
    else
      StepKeeps(s, events[0]);
      Run(Step(s, events[0]), events[1..])
  }

  /** The state after a run from the start. */
  ghost function FromStart(events: seq<Event>): (s: Session)
    ensures Inv(s)
  {
    Run(START, events)
  }

  /** In every interleaving, with no full upload pending, a byte in which the texture differs from the
      framebuffer lies in a rectangle that is queued, in hand or about to be queued. */
  lemma NothingIsLost(events: seq<Event>, i: nat)
    ensures var s := FromStart(events);
            s.fb.Frame? && !FullPending(s) && i < |s.fb.pixels| ==>
              && SameShape(s.texture, s.fb) && |s.texture.pixels| == |s.fb.pixels|
              && 0 < s.fb.width
              && (s.texture.pixels[i] != s.fb.pixels[i] ==> RectPending(s, i))
  {
    var s := FromStart(events);
    if s.fb.Frame? && !FullPending(s) {
      SameShapeLength(s.texture, s.fb);
    }
  }

  lemma RunTwo(s: Session, a: Event, b: Event)
    requires Inv(s)
    ensures Inv(Step(s, a)) && Run(s, [a, b]) == Step(Step(s, a), b)
  {
    StepKeeps(s, a);
    StepKeeps(Step(s, a), b);
    assert [a, b][1..] == [b] && [b][1..] == [];
    assert Run(Step(s, a), [b]) == Run(Step(Step(s, a), b), []);
  }

  /** After any run, once the worker is quiet, one drain and one upload whose texture can be created make
      the texture the framebuffer: across resizes, refused frames, overflow and re-attached views. */
  lemma OneUploadCatchesUp(events: seq<Event>, blank: seq<Byte>)
    ensures var s := FromStart(events);
            s.worker.Resting? && s.main.Free? && s.fb.Frame? && |blank| == |s.fb.pixels| ==>
              var t := Run(s, [Drain, Upload(blank, true)]);
              t.fb == s.fb && t.texture == s.fb && t.main.Free? && !t.damage.full && t.damage.queue == []
  {
    var s := FromStart(events);
    if s.worker.Resting? && s.main.Free? && s.fb.Frame? && |blank| == |s.fb.pixels| {
      StepKeeps(s, Drain);
      var drained := Step(s, Drain);
      StepKeeps(drained, Upload(blank, true));
      var t := Step(drained, Upload(blank, true));
      RunTwo(s, Drain, Upload(blank, true));
      if drained.main.Free? || !(drained.main.batch.full || !SameShape(s.texture, s.fb)) {
        SameShapeLength(t.texture, t.fb);
        forall i | 0 <= i < |t.fb.pixels| ensures t.texture.pixels[i] == t.fb.pixels[i] {
          assert !RectPending(t, i);
        }
        assert t.texture.pixels == t.fb.pixels;
      } else {
        FullUpload(s.texture, s.fb, drained.main.batch, blank);
      }
    }
  }

  // ---------------------------------------------------------------- what arrives

  lemma {:induction false} RunConcat(s: Session, events: seq<Event>, more: seq<Event>)
    requires Inv(s)
    ensures Run(s, events + more) == Run(Run(s, events), more)
    decreases |events|
  {
    if events == [] {
      assert events + more == more;
    } else {
      StepKeeps(s, events[0]);
      assert (events + more)[1..] == events[1..] + more;
      RunConcat(Step(s, events[0]), events[1..], more);
    }
  }

  /** The worker's two lock sections of an accepted copy. */
  lemma CopyArrives(s: Session, r: DamageRect, bytes: seq<Byte>)
    requires Inv(s) && s.worker.Resting? && s.fb.Frame? && Accepts(s.fb, r, bytes)
    ensures var t := Run(s, [CopyFrame(r, bytes), FinishCopy]);
            t.fb == CopiedFrame(s.fb, r, bytes) && t.worker.Resting? && t.main == s.main
  {
    RunTwo(s, CopyFrame(r, bytes), FinishCopy);
  }

  lemma AllocateArrives(s: Session, width: U16, height: U16)
    requires Inv(s) && s.worker.Resting? && Allocatable(width, height)
    ensures var t := Run(s, [Allocate(width, height), MarkAfterAllocate]);
            t.fb == Allocated(s.fb, width, height) && t.worker.Resting? && t.main == s.main
  {
    RunTwo(s, Allocate(width, height), MarkAfterAllocate);
  }

  /** From any state a run can reach, a copy that is accepted, followed by one drain and one upload whose
      texture can be created, leaves the copied bytes in the texture, and around them what was there. */
  lemma CopyReachesTexture(events: seq<Event>, r: DamageRect, bytes: seq<Byte>, blank: seq<Byte>, i: nat)
    ensures var s := FromStart(events);
            s.worker.Resting? && s.main.Free? && s.fb.Frame? && Accepts(s.fb, r, bytes) && |blank| == |s.fb.pixels| && i < |blank| ==>
              var t := FromStart(events + [CopyFrame(r, bytes), FinishCopy] + [Drain, Upload(blank, true)]).texture;
              && SameShape(t, s.fb) && |t.pixels| == |s.fb.pixels|
              && if Hits(s.fb, r, i) then
                   var from := IndexOf(r.width, PixelX(s.fb.width, i) - r.x, PixelY(s.fb.width, i) - r.y, Channel(s.fb.width, i));
                   0 <= from < |bytes| && t.pixels[i] == bytes[from]
                 else t.pixels[i] == s.fb.pixels[i]
  {
    var s := FromStart(events);
    if s.worker.Resting? && s.main.Free? && s.fb.Frame? && Accepts(s.fb, r, bytes) && |blank| == |s.fb.pixels| && i < |blank| {
      var copy := [CopyFrame(r, bytes), FinishCopy];
      RunConcat(START, events, copy);
      RunConcat(START, events + copy, [Drain, Upload(blank, true)]);
      CopyArrives(s, r, bytes);
      CopiedAt(s.fb, r, bytes, i);
      OneUploadCatchesUp(events + copy, blank);
    }
  }

  /** The same across an allocation, which blanks the picture unless it has that shape already. */
  lemma AllocatedCopyReachesTexture(events: seq<Event>, width: U16, height: U16, r: DamageRect, bytes: seq<Byte>, blank: seq<Byte>, i: nat)
    ensures var s := FromStart(events);
            s.worker.Resting? && s.main.Free? && Allocatable(width, height)
            && r.x + r.width <= width && r.y + r.height <= height && r.height * (r.width * BYTES_PER_PIXEL) <= |bytes|
            && |blank| == height * (width * BYTES_PER_PIXEL) && i < |blank| ==>
              var allocate := [Allocate(width, height), MarkAfterAllocate];
              var t := FromStart(events + allocate + [CopyFrame(r, bytes), FinishCopy] + [Drain, Upload(blank, true)]).texture;
              && t.Frame? && t.width == width && t.height == height && |t.pixels| == |blank|
              && if Within(PixelX(width, i), PixelY(width, i), r.x, r.y, r.width, r.height) then
                   var from := IndexOf(r.width, PixelX(width, i) - r.x, PixelY(width, i) - r.y, Channel(width, i));
                   0 <= from < |bytes| && t.pixels[i] == bytes[from]
                 else t.pixels[i] == if s.fb.Frame? && s.fb.width == width && s.fb.height == height then s.fb.pixels[i] else 0
  {
    var s := FromStart(events);
    if s.worker.Resting? && s.main.Free? && Allocatable(width, height)
       && r.x + r.width <= width && r.y + r.height <= height && r.height * (r.width * BYTES_PER_PIXEL) <= |bytes|
       && |blank| == height * (width * BYTES_PER_PIXEL) && i < |blank|
    {
      var allocate := [Allocate(width, height), MarkAfterAllocate];
      RunConcat(START, events, allocate);
      AllocateArrives(s, width, height);
      AllocatedMeans(s.fb, width, height);
      CopyReachesTexture(events + allocate, r, bytes, blank, i);
    }
  }
}
