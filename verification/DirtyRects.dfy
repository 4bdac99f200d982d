/** The lossy list of dirty rectangles (`services/rdp-core/src/egfx_surface.rs`). */
module DirtyRects {
  import opened Words

  const MAX_DIRTY_RECTS := 8
  const MERGE_SLACK: U64 := 320 * 180

  /** Half-open: right and bottom are outside. */
  datatype Rect = Rect(left: U16, top: U16, right: U16, bottom: U16)

  predicate Covers(r: Rect, x: int, y: int) {
    r.left <= x < r.right && r.top <= y < r.bottom
  }

  predicate Proper(r: Rect) {
    r.left < r.right && r.top < r.bottom
  }

  /** Non-empty and inside a width x height screen. */
  predicate InScreen(r: Rect, width: int, height: int) {
    Proper(r) && r.right <= width && r.bottom <= height
  }

  ghost predicate Covered(rects: seq<Rect>, x: int, y: int) {
    exists k :: 0 <= k < |rects| && Covers(rects[k], x, y)
  }

  // ---------------------------------------------------------------- rectangle arithmetic

  lemma MulMonotone(a: nat, b: nat, k: nat)
    requires a <= b
    ensures 0 <= a * k <= b * k
  {
  }

  lemma MulStep(a: int, b: int)
    ensures a * b == (a - 1) * b + b
  {
  }

  lemma ProductFits(a: U16, b: U16)
    ensures 0 <= a * b <= 0xFFFF * 0xFFFF
  {
    MulMonotone(a, 0xFFFF, b);
    MulMonotone(b, 0xFFFF, 0xFFFF);
  }

  function OverlapArea(a: Rect, b: Rect): U64 {
    var left, top := Max(a.left, b.left), Max(a.top, b.top);
    var right, bottom := Min(a.right, b.right), Min(a.bottom, b.bottom);
    if right <= left || bottom <= top then 0
    else
      ProductFits(right - left, bottom - top);
      (right - left) * (bottom - top)
  }

  function Union(a: Rect, b: Rect): (u: Rect)
    ensures forall x, y :: Covers(a, x, y) || Covers(b, x, y) ==> Covers(u, x, y)
  {
    Rect(Min(a.left, b.left), Min(a.top, b.top), Max(a.right, b.right), Max(a.bottom, b.bottom))
  }

  function Area(r: Rect): (n: U64)
    ensures n < 0x1_0000_0000
  {
    ProductFits(SatSub(r.right, r.left), SatSub(r.bottom, r.top));
    SatSub(r.right, r.left) * SatSub(r.bottom, r.top)
  }

  // ---------------------------------------------------------------- areas count pixels

  ghost function PixelSet(r: Rect): set<(int, int)> {
    set x, y | r.left <= x < r.right && r.top <= y < r.bottom :: (x, y)
  }

  ghost function Column(x: int, top: int, bottom: int): set<(int, int)> {
    set y | top <= y < bottom :: (x, y)
  }

  lemma ColumnSize(x: int, top: int, bottom: int)
    requires top <= bottom
    ensures |Column(x, top, bottom)| == bottom - top
    decreases bottom - top
  {
    if top < bottom {
      ColumnSize(x, top, bottom - 1);
      assert Column(x, top, bottom) == Column(x, top, bottom - 1) + {(x, bottom - 1)};
    }
  }

  /** The area of a rectangle is the number of its pixels. */
  lemma {:induction false} AreaCountsPixels(r: Rect)
    ensures |PixelSet(r)| == Area(r)
    decreases r.right
  {
    if r.right <= r.left || r.bottom <= r.top {
      assert PixelSet(r) == {};
    } else {
      var narrower := r.(right := r.right - 1);
      var column := Column(r.right - 1, r.top, r.bottom);
      AreaCountsPixels(narrower);
      ColumnSize(r.right - 1, r.top, r.bottom);
      assert PixelSet(r) == PixelSet(narrower) + column;
      assert PixelSet(narrower) !! column;
      MulStep(r.right - r.left, r.bottom - r.top);
    }
  }

  lemma OverlapCountsPixels(a: Rect, b: Rect)
    ensures |PixelSet(a) * PixelSet(b)| == OverlapArea(a, b)
  {
    var both := Rect(Max(a.left, b.left), Max(a.top, b.top), Min(a.right, b.right), Min(a.bottom, b.bottom));
    assert PixelSet(a) * PixelSet(b) == PixelSet(both);
    AreaCountsPixels(both);
  }

  /** What merging two rectangles costs is exactly the number of pixels of the bounding box that
      neither rectangle covers. In particular the unsigned subtractions neither underflow nor saturate. */
  lemma MergeCostCountsCleanPixels(a: Rect, b: Rect)
    ensures OverlapArea(a, b) <= Area(a) && OverlapArea(a, b) <= Area(b)
    ensures Area(a) + Area(b) - OverlapArea(a, b) <= Area(Union(a, b))
    ensures |PixelSet(Union(a, b)) - (PixelSet(a) + PixelSet(b))|
         == Area(Union(a, b)) - (Area(a) + Area(b) - OverlapArea(a, b))
  {
    var A, B, U := PixelSet(a), PixelSet(b), PixelSet(Union(a, b));
    AreaCountsPixels(a);
    AreaCountsPixels(b);
    AreaCountsPixels(Union(a, b));
    OverlapCountsPixels(a, b);
    UnionHolds(a, b);
    SizeOfUnion(A, B);
    SizeOfRest(A * B, A);
    SizeOfRest(A * B, B);
    SizeOfRest(A + B, U);
  }

  lemma UnionHolds(a: Rect, b: Rect)
    ensures PixelSet(a) + PixelSet(b) <= PixelSet(Union(a, b))
  {
    forall p | p in PixelSet(a) + PixelSet(b) ensures p in PixelSet(Union(a, b)) {
      assert Covers(a, p.0, p.1) || Covers(b, p.0, p.1);
    }
  }

  lemma SizeOfUnion<T>(a: set<T>, b: set<T>)
    ensures |a + b| == |a| + |b| - |a * b|
  {
  }

  lemma SizeOfRest<T>(a: set<T>, b: set<T>)
    requires a <= b
    ensures |b - a| == |b| - |a| && |a| <= |b|
  {
    assert b == a + (b - a);
  }

  /** Extra area sent when `rect` is merged into `existing`, as the source computes it. */
  function Added(existing: Rect, rect: Rect): (n: U64)
    ensures n == Area(Union(existing, rect)) - (Area(existing) + Area(rect) - OverlapArea(existing, rect))
  {
    MergeCostCountsCleanPixels(existing, rect);
    var merged: U64 := Area(Union(existing, rect));
    var separate: U64 := Area(existing) + Area(rect) - OverlapArea(existing, rect);
    Max(merged - separate, 0)
  }

  // ---------------------------------------------------------------- marking

  /** The first of the rectangles whose merge with `rect` costs least. */
  ghost predicate IsCheapest(dirty: seq<Rect>, rect: Rect, i: int) {
    && 0 <= i < |dirty|
    && (forall j :: 0 <= j < |dirty| ==> Added(dirty[i], rect) <= Added(dirty[j], rect))
    && (forall j :: 0 <= j < i ==> Added(dirty[i], rect) < Added(dirty[j], rect))
  }

  lemma CheapestExists(dirty: seq<Rect>, rect: Rect, i: int)
    requires 0 <= i < |dirty|
    ensures exists j :: IsCheapest(dirty, rect, j)
    decreases Added(dirty[i], rect), i
  {
    if !IsCheapest(dirty, rect, i) {
      var j :| 0 <= j < |dirty| && (Added(dirty[j], rect) < Added(dirty[i], rect) || (j < i && Added(dirty[j], rect) <= Added(dirty[i], rect)));
      CheapestExists(dirty, rect, j);
    }
  }

  function PairCost(dirty: seq<Rect>, i: int, j: int): U64
    requires 0 <= i < j < |dirty|
  {
    Area(Union(dirty[i], dirty[j]))
  }

  /** Pair (p, q) is preferred to (i, j): a smaller bounding box, or an equal one met earlier. */
  predicate Preferred(dirty: seq<Rect>, p: int, q: int, i: int, j: int)
    requires 0 <= p < q < |dirty| && 0 <= i < j < |dirty|
  {
    || PairCost(dirty, p, q) < PairCost(dirty, i, j)
    || (PairCost(dirty, p, q) == PairCost(dirty, i, j) && (p < i || (p == i && q < j)))
  }

  ghost predicate IsCheapestPair(dirty: seq<Rect>, i: int, j: int) {
    && 0 <= i < j < |dirty|
    && (forall p, q :: 0 <= p < q < |dirty| ==> !Preferred(dirty, p, q, i, j))
  }

  lemma CheapestPairExists(dirty: seq<Rect>, i: int, j: int)
    requires 0 <= i < j < |dirty|
    ensures exists p, q :: IsCheapestPair(dirty, p, q)
    decreases PairCost(dirty, i, j), i, j
  {
    if !IsCheapestPair(dirty, i, j) {
      var p, q :| 0 <= p < q < |dirty| && Preferred(dirty, p, q, i, j);
      CheapestPairExists(dirty, p, q);
    }
  }

  ghost function Merged(dirty: seq<Rect>, i: int, j: int): (r: seq<Rect>)
    requires 0 <= i < j < |dirty|
    ensures |r| == |dirty| - 1
  {
    var widened := dirty[i := Union(dirty[i], dirty[j])];
    widened[..j] + widened[j + 1..]
  }

  /** The list after marking `rect`: merged into the cheapest rectangle when that re-sends at most
      MERGE_SLACK clean pixels, appended while there is room, and otherwise appended with the pair of
      smallest bounding box merged. */
  ghost function Marked(dirty: seq<Rect>, rect: Rect): (r: seq<Rect>) {
    if dirty == [] then [rect]
    else
      CheapestExists(dirty, rect, 0);
      var i :| IsCheapest(dirty, rect, i);
      if Added(dirty[i], rect) <= MERGE_SLACK then dirty[i := Union(dirty[i], rect)]
      else if |dirty| < MAX_DIRTY_RECTS then dirty + [rect]
      else
        var all := dirty + [rect];
        CheapestPairExists(all, 0, 1);
        var p, q :| IsCheapestPair(all, p, q);
        Merged(all, p, q)
  }

  lemma CheapestUnique(dirty: seq<Rect>, rect: Rect, i: int, j: int)
    requires IsCheapest(dirty, rect, i) && IsCheapest(dirty, rect, j)
    ensures i == j
  {
    assert Added(dirty[i], rect) <= Added(dirty[j], rect) && Added(dirty[j], rect) <= Added(dirty[i], rect);
  }

  lemma CheapestPairUnique(dirty: seq<Rect>, i: int, j: int, p: int, q: int)
    requires IsCheapestPair(dirty, i, j) && IsCheapestPair(dirty, p, q)
    ensures i == p && j == q
  {
    assert !Preferred(dirty, i, j, p, q) && !Preferred(dirty, p, q, i, j);
  }

  // ---------------------------------------------------------------- what marking keeps

  /** The three ways a list can change. */
  ghost predicate Shape(dirty: seq<Rect>, rect: Rect, after: seq<Rect>, p: int, q: int) {
    || (|dirty| < MAX_DIRTY_RECTS && after == dirty + [rect])
    || (0 <= p < |dirty| && after == dirty[p := Union(dirty[p], rect)])
    || (|dirty| >= MAX_DIRTY_RECTS && 0 <= p < q <= |dirty| && after == Merged(dirty + [rect], p, q))
  }

  lemma MarkedShape(dirty: seq<Rect>, rect: Rect) returns (p: int, q: int)
    ensures Shape(dirty, rect, Marked(dirty, rect), p, q)
  {
    p, q := 0, 0;
    if dirty != [] {
      CheapestExists(dirty, rect, 0);
      var i :| IsCheapest(dirty, rect, i) && (Added(dirty[i], rect) <= MERGE_SLACK ==> Marked(dirty, rect) == dirty[i := Union(dirty[i], rect)]);
      p := i;
      if Added(dirty[i], rect) > MERGE_SLACK && |dirty| >= MAX_DIRTY_RECTS {
        CheapestPairExists(dirty + [rect], 0, 1);
        p, q :| IsCheapestPair(dirty + [rect], p, q) && Marked(dirty, rect) == Merged(dirty + [rect], p, q);
      }
    }
  }

  ghost predicate GoodList(dirty: seq<Rect>, width: int, height: int) {
    && |dirty| <= MAX_DIRTY_RECTS
    && forall k :: 0 <= k < |dirty| ==> InScreen(dirty[k], width, height)
  }

  lemma ShapeIsGood(dirty: seq<Rect>, rect: Rect, after: seq<Rect>, p: int, q: int, width: int, height: int)
    requires Shape(dirty, rect, after, p, q)
    requires GoodList(dirty, width, height) && InScreen(rect, width, height)
    ensures GoodList(after, width, height)
  {
  }

  /** At most 8 rectangles, every one non-empty and inside the screen. */
  lemma MarkedIsGood(dirty: seq<Rect>, rect: Rect, width: int, height: int)
    requires GoodList(dirty, width, height) && InScreen(rect, width, height)
    ensures GoodList(Marked(dirty, rect), width, height)
  {
    var p, q := MarkedShape(dirty, rect);
    ShapeIsGood(dirty, rect, Marked(dirty, rect), p, q, width, height);
  }

  lemma ShapeCovers(dirty: seq<Rect>, rect: Rect, after: seq<Rect>, p: int, q: int, x: int, y: int)
    requires Shape(dirty, rect, after, p, q)
    requires Covered(dirty, x, y) || Covers(rect, x, y)
    ensures Covered(after, x, y)
  {
    var all := dirty + [rect];
    assert Covered(all, x, y) by {
      if Covers(rect, x, y) {
        assert Covers(all[|dirty|], x, y);
      } else {
        var k :| 0 <= k < |dirty| && Covers(dirty[k], x, y);
        assert Covers(all[k], x, y);
      }
    }
    var k :| 0 <= k < |all| && Covers(all[k], x, y);
    if after == all {
    } else if 0 <= p < |dirty| && after == dirty[p := Union(dirty[p], rect)] {
      assert Covers(after[if k == |dirty| then p else k], x, y);
    } else {
      assert Covers(after[if k == q then p else if k < q then k else k - 1], x, y);
    }
  }

  /** Nothing that was covered, and nothing of the new rectangle, is left uncovered. */
  lemma MarkedCovers(dirty: seq<Rect>, rect: Rect, x: int, y: int)
    requires Covered(dirty, x, y) || Covers(rect, x, y)
    ensures Covered(Marked(dirty, rect), x, y)
  {
    var p, q := MarkedShape(dirty, rect);
    ShapeCovers(dirty, rect, Marked(dirty, rect), p, q, x, y);
  }

  // ---------------------------------------------------------------- what marking adds

  /** The pixels a list of rectangles covers. */
  ghost function PixelsOf(rects: seq<Rect>): set<(int, int)>
    decreases |rects|
  {
    if rects == [] then {} else PixelsOf(rects[..|rects| - 1]) + PixelSet(rects[|rects| - 1])
  }

  lemma {:induction false} PixelsAre(rects: seq<Rect>, p: (int, int))
    ensures p in PixelsOf(rects) <==> Covered(rects, p.0, p.1)
    decreases |rects|
  {
    if rects != [] {
      var init, last := rects[..|rects| - 1], rects[|rects| - 1];
      PixelsAre(init, p);
      if Covered(init, p.0, p.1) {
        var k :| 0 <= k < |init| && Covers(init[k], p.0, p.1);
        assert Covers(rects[k], p.0, p.1);
      }
      if Covered(rects, p.0, p.1) {
        var k :| 0 <= k < |rects| && Covers(rects[k], p.0, p.1);
        assert k < |init| ==> Covers(init[k], p.0, p.1);
      }
      if Covers(last, p.0, p.1) {
        assert Covers(rects[|init|], p.0, p.1);
      }
    }
  }

  /** How many pixels of the bounding box of two rectangles neither covers. */
  ghost function Clean(a: Rect, b: Rect): nat {
    |PixelSet(Union(a, b)) - (PixelSet(a) + PixelSet(b))|
  }

  lemma AddedIsClean(a: Rect, b: Rect)
    ensures Added(a, b) == Clean(a, b)
  {
    MergeCostCountsCleanPixels(a, b);
  }

  /** The new rectangle is merged into another one whenever that takes at most 320 x 180 clean pixels along;
      otherwise it is appended while there are fewer than 8. */
  lemma MergedWhenCheap(dirty: seq<Rect>, rect: Rect)
    ensures var after := Marked(dirty, rect);
            if exists i :: 0 <= i < |dirty| && Clean(dirty[i], rect) <= 57600 then
              exists i :: 0 <= i < |dirty| && Clean(dirty[i], rect) <= 57600 && after == dirty[i := Union(dirty[i], rect)]
                          && forall j :: 0 <= j < |dirty| ==> Clean(dirty[i], rect) <= Clean(dirty[j], rect)
            else |dirty| < 8 ==> after == dirty + [rect]
  {
    forall i | 0 <= i < |dirty| ensures Added(dirty[i], rect) == Clean(dirty[i], rect) {
      AddedIsClean(dirty[i], rect);
    }
    if dirty != [] {
      CheapestExists(dirty, rect, 0);
      var i :| IsCheapest(dirty, rect, i) && (Added(dirty[i], rect) <= MERGE_SLACK ==> Marked(dirty, rect) == dirty[i := Union(dirty[i], rect)]);
      assert 0 <= i < |dirty|;
    }
  }

  lemma WidenedOnly(dirty: seq<Rect>, i: nat, rect: Rect, p: (int, int))
    requires i < |dirty| && p in PixelsOf(dirty[i := Union(dirty[i], rect)])
    ensures p in PixelsOf(dirty) || p in PixelSet(Union(dirty[i], rect))
    ensures p in PixelSet(dirty[i]) ==> p in PixelsOf(dirty)
  {
    var after := dirty[i := Union(dirty[i], rect)];
    PixelsAre(after, p);
    PixelsAre(dirty, p);
    var k :| 0 <= k < |after| && Covers(after[k], p.0, p.1);
    assert k != i ==> after[k] == dirty[k];
  }

  lemma MergeAdds(dirty: seq<Rect>, i: nat, rect: Rect)
    requires i < |dirty|
    ensures |PixelsOf(dirty[i := Union(dirty[i], rect)]) - PixelsOf(dirty) - PixelSet(rect)| <= Clean(dirty[i], rect)
  {
    var added := PixelsOf(dirty[i := Union(dirty[i], rect)]) - PixelsOf(dirty) - PixelSet(rect);
    var clean := PixelSet(Union(dirty[i], rect)) - (PixelSet(dirty[i]) + PixelSet(rect));
    forall p | p in added ensures p in clean {
      WidenedOnly(dirty, i, rect, p);
    }
    SizeOfRest(added, clean);
  }

  lemma AppendAdds(dirty: seq<Rect>, rect: Rect)
    ensures PixelsOf(dirty + [rect]) == PixelsOf(dirty) + PixelSet(rect)
  {
    assert (dirty + [rect])[..|dirty|] == dirty;
  }

  /** Unless the list overflows, marking takes at most 320 x 180 pixels along that nothing had drawn on. */
  lemma MarkedAddsLittle(dirty: seq<Rect>, rect: Rect)
    requires |dirty| < 8 || exists i :: 0 <= i < |dirty| && Clean(dirty[i], rect) <= 57600
    ensures |PixelsOf(Marked(dirty, rect)) - PixelsOf(dirty) - PixelSet(rect)| <= 57600
  {
    MergedWhenCheap(dirty, rect);
    if exists i :: 0 <= i < |dirty| && Clean(dirty[i], rect) <= 57600 {
      var i :| 0 <= i < |dirty| && Clean(dirty[i], rect) <= 57600 && Marked(dirty, rect) == dirty[i := Union(dirty[i], rect)];
      MergeAdds(dirty, i, rect);
    } else {
      AppendAdds(dirty, rect);
      assert PixelsOf(dirty) + PixelSet(rect) - PixelsOf(dirty) - PixelSet(rect) == {};
    }
  }
}
