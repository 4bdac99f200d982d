/** Manual order of sibling groups (`packages/shared-core/src/group-ordering.ts`). */
module GroupReorder {
  import opened Words
  import opened JsText

  const STEP := 1024

  /** What the rules look at in a group record; a rank that is absent or null is `None`. */
  datatype Sibling = Sibling(id: Text, path: Text, rank: Option<int>)

  datatype Assignment = Assignment(id: Text, rank: int)

  /** The order of `localeCompare`, of which only this is used: it is a total order on strings. */
  type Order = (Text, Text) -> bool

  ghost predicate TotalOrder(leq: Order) {
    && (forall a, b :: leq(a, b) || leq(b, a))
    && (forall a, b :: leq(a, b) && leq(b, a) ==> a == b)
    && (forall a, b, c :: leq(a, b) && leq(b, c) ==> leq(a, c))
  }

  function LocaleCompare(leq: Order, a: Text, b: Text): int {
    if a == b then 0 else if leq(a, b) then -1 else 1
  }

  function Compare(leq: Order, left: Sibling, right: Sibling): int {
    if left.rank.Some? && right.rank.Some? then
      if left.rank.value != right.rank.value then left.rank.value - right.rank.value
      else LocaleCompare(leq, left.id, right.id)
    else if left.rank.Some? then -1
    else if right.rank.Some? then 1
    else LocaleCompare(leq, left.path, right.path)
  }

  /** The comparison is a total preorder, which a sort needs. */
  lemma CompareIsPreorder(leq: Order, a: Sibling, b: Sibling, c: Sibling)
    requires TotalOrder(leq)
    ensures Compare(leq, a, a) == 0
    ensures Compare(leq, a, b) > 0 <==> Compare(leq, b, a) < 0
    ensures Compare(leq, a, b) == 0 <==> Compare(leq, b, a) == 0
    ensures Compare(leq, a, b) <= 0 && Compare(leq, b, c) <= 0 ==> Compare(leq, a, c) <= 0
    ensures Compare(leq, a, b) <= 0 && Compare(leq, b, c) < 0 ==> Compare(leq, a, c) < 0
  {
  }

  /** The order that is shown: ranked siblings first, by rank and equal ranks by id; then the unranked ones,
      by path. */
  predicate Precedes(leq: Order, a: Sibling, b: Sibling) {
    match (a.rank, b.rank)
    case (Some(m), Some(n)) => m < n || (m == n && leq(a.id, b.id))
    case (Some(_), None) => true
    case (None, Some(_)) => false
    case (None, None) => leq(a.path, b.path)
  }

  lemma CompareMeans(leq: Order, a: Sibling, b: Sibling)
    requires TotalOrder(leq)
    ensures Compare(leq, a, b) <= 0 <==> Precedes(leq, a, b)
  {
  }

  predicate Sorted(leq: Order, s: seq<Sibling>) {
    forall i, j :: 0 <= i < j < |s| ==> Compare(leq, s[i], s[j]) <= 0
  }

  /** Every sorted list is in the order that is shown, and nothing else is. */
  lemma SortedMeans(leq: Order, s: seq<Sibling>)
    requires TotalOrder(leq)
    ensures Sorted(leq, s) <==> forall i, j :: 0 <= i < j < |s| ==> Precedes(leq, s[i], s[j])
  {
    forall i, j | 0 <= i < j < |s| ensures Compare(leq, s[i], s[j]) <= 0 <==> Precedes(leq, s[i], s[j]) {
      CompareMeans(leq, s[i], s[j]);
    }
  }

  // ---------------------------------------------------------------- the stable sort

  /** `x` placed behind every element of a sorted list that is not greater. */
  function Insert(leq: Order, s: seq<Sibling>, x: Sibling): (r: seq<Sibling>)
    ensures |r| == |s| + 1
    decreases |s|
  {
    if s == [] || Compare(leq, s[|s| - 1], x) <= 0 then s + [x]
    else Insert(leq, s[..|s| - 1], x) + [s[|s| - 1]]
  }

  /** What `Array.prototype.sort` yields with this comparison. */
  function StableSort(leq: Order, s: seq<Sibling>): (r: seq<Sibling>)
    ensures |r| == |s|
    decreases |s|
  {
    if s == [] then [] else Insert(leq, StableSort(leq, s[..|s| - 1]), s[|s| - 1])
  }

  /** The elements that tie with `c`, in order. */
  function Ties(leq: Order, c: Sibling, s: seq<Sibling>): seq<Sibling>
    decreases |s|
  {
    if s == [] then []
    else Ties(leq, c, s[..|s| - 1]) + if Compare(leq, c, s[|s| - 1]) == 0 then [s[|s| - 1]] else []
  }

  lemma TiesSnoc(leq: Order, c: Sibling, s: seq<Sibling>, x: Sibling)
    ensures Ties(leq, c, s + [x]) == Ties(leq, c, s) + if Compare(leq, c, x) == 0 then [x] else []
  {
    assert (s + [x])[..|s|] == s;
  }

  predicate AllBelow(leq: Order, s: seq<Sibling>, c: Sibling) {
    forall i :: 0 <= i < |s| ==> Compare(leq, s[i], c) <= 0
  }

  lemma {:induction false} InsertBelow(leq: Order, s: seq<Sibling>, x: Sibling, c: Sibling)
    requires AllBelow(leq, s, c) && Compare(leq, x, c) <= 0
    ensures AllBelow(leq, Insert(leq, s, x), c)
    decreases |s|
  {
    if s != [] && Compare(leq, s[|s| - 1], x) > 0 {
      InsertBelow(leq, s[..|s| - 1], x, c);
    }
  }

  lemma SortedSnoc(leq: Order, s: seq<Sibling>, x: Sibling)
    ensures Sorted(leq, s + [x]) <==> Sorted(leq, s) && AllBelow(leq, s, x)
  {
    assert forall i :: 0 <= i < |s| ==> (s + [x])[i] == s[i];
    if Sorted(leq, s + [x]) {
      assert (s + [x])[|s|] == x;
    }
  }

  lemma LastBounds(leq: Order, s: seq<Sibling>, x: Sibling)
    requires TotalOrder(leq) && Sorted(leq, s)
    requires s == [] || Compare(leq, s[|s| - 1], x) <= 0
    ensures AllBelow(leq, s, x)
  {
    forall i | 0 <= i < |s| ensures Compare(leq, s[i], x) <= 0 {
      CompareIsPreorder(leq, s[i], s[|s| - 1], x);
    }
  }

  lemma {:induction false} InsertSorts(leq: Order, s: seq<Sibling>, x: Sibling)
    requires TotalOrder(leq) && Sorted(leq, s)
    ensures Sorted(leq, Insert(leq, s, x))
    decreases |s|
  {
    if s == [] || Compare(leq, s[|s| - 1], x) <= 0 {
      LastBounds(leq, s, x);
      SortedSnoc(leq, s, x);
    } else {
      var init, last := s[..|s| - 1], s[|s| - 1];
      assert s == init + [last];
      SortedSnoc(leq, init, last);
      CompareIsPreorder(leq, last, x, x);
      InsertBelow(leq, init, x, last);
      InsertSorts(leq, init, x);
      SortedSnoc(leq, Insert(leq, init, x), last);
    }
  }

  lemma {:induction false} InsertAdds(leq: Order, s: seq<Sibling>, x: Sibling)
    ensures multiset(Insert(leq, s, x)) == multiset(s) + multiset{x}
    decreases |s|
  {
    if s != [] && Compare(leq, s[|s| - 1], x) > 0 {
      InsertAdds(leq, s[..|s| - 1], x);
      assert s == s[..|s| - 1] + [s[|s| - 1]];
    }
  }

  lemma {:induction false} InsertKeepsTies(leq: Order, s: seq<Sibling>, x: Sibling, c: Sibling)
    requires TotalOrder(leq)
    ensures Ties(leq, c, Insert(leq, s, x)) == Ties(leq, c, s + [x])
    decreases |s|
  {
    if s != [] && Compare(leq, s[|s| - 1], x) > 0 {
      var init, last := s[..|s| - 1], s[|s| - 1];
      assert s == init + [last];
      InsertKeepsTies(leq, init, x, c);
      TiesSnoc(leq, c, init, x);
      TiesSnoc(leq, c, init, last);
      TiesSnoc(leq, c, s, x);
      TiesSnoc(leq, c, Insert(leq, init, x), last);
      CompareIsPreorder(leq, last, c, x);
      CompareIsPreorder(leq, c, last, x);
    }
  }

  /** The sort sorts, loses nothing, and keeps elements that tie in the order they had. */
  lemma {:induction false} SortIsStable(leq: Order, s: seq<Sibling>, c: Sibling)
    requires TotalOrder(leq)
    ensures Sorted(leq, StableSort(leq, s))
    ensures multiset(StableSort(leq, s)) == multiset(s)
    ensures Ties(leq, c, StableSort(leq, s)) == Ties(leq, c, s)
    decreases |s|
  {
    if s != [] {
      var init, x := s[..|s| - 1], s[|s| - 1];
      assert s == init + [x];
      SortIsStable(leq, init, c);
      InsertSorts(leq, StableSort(leq, init), x);
      InsertAdds(leq, StableSort(leq, init), x);
      InsertKeepsTies(leq, StableSort(leq, init), x, c);
      TiesSnoc(leq, c, init, x);
      TiesSnoc(leq, c, StableSort(leq, init), x);
    }
  }

  lemma {:induction false} SortedStays(leq: Order, s: seq<Sibling>)
    requires Sorted(leq, s)
    ensures StableSort(leq, s) == s
    decreases |s|
  {
    if s != [] {
      var init, last := s[..|s| - 1], s[|s| - 1];
      assert s == init + [last];
      SortedSnoc(leq, init, last);
      SortedStays(leq, init);
      assert Insert(leq, init, last) == init + [last];
    }
  }

  // ---------------------------------------------------------------- one element out of place

  /** `x` belongs at `p` in a list: after all before it, before all from there on. */
  predicate Belongs(leq: Order, s: seq<Sibling>, x: Sibling, p: nat) {
    && p <= |s|
    && (forall i :: 0 <= i < p ==> Compare(leq, s[i], x) < 0)
    && (forall i :: p <= i < |s| ==> Compare(leq, s[i], x) > 0)
  }

  /** `splice(k, 0, x)`. */
  function Put(s: seq<Sibling>, x: Sibling, k: nat): (r: seq<Sibling>)
    requires k <= |s|
    ensures |r| == |s| + 1
  {
    s[..k] + [x] + s[k..]
  }

  lemma PutSnoc(s: seq<Sibling>, last: Sibling, x: Sibling, k: nat)
    requires k <= |s|
    ensures Put(s + [last], x, k) == Put(s, x, k) + [last]
  {
    assert (s + [last])[k..] == s[k..] + [last];
  }

  lemma PutAtEnd(s: seq<Sibling>, x: Sibling)
    ensures Put(s, x, |s|) == s + [x]
  {
  }

  lemma {:induction false} InsertAt(leq: Order, s: seq<Sibling>, x: Sibling, p: nat)
    requires Belongs(leq, s, x, p)
    ensures Insert(leq, s, x) == Put(s, x, p)
    decreases |s|
  {
    if p < |s| {
      var init, last := s[..|s| - 1], s[|s| - 1];
      assert s == init + [last];
      InsertAt(leq, init, x, p);
      PutSnoc(init, last, x, p);
    } else {
      PutAtEnd(s, x);
    }
  }

  /** The last element of the sorted rest goes behind the element that was moved. */
  lemma AppendLast(leq: Order, init: seq<Sibling>, last: Sibling, x: Sibling, p: nat)
    requires p <= |init| && AllBelow(leq, init, last) && Compare(leq, x, last) < 0
    ensures Insert(leq, Put(init, x, p), last) == Put(init + [last], x, p)
  {
    PutSnoc(init, last, x, p);
    var r := Put(init, x, p);
    if p == |init| {
      assert r[|r| - 1] == x;
    } else {
      assert r[|r| - 1] == init[|init| - 1];
    }
  }

  /** ... or in front of it, when that has come to the end. */
  lemma InsertBeforeLast(leq: Order, init: seq<Sibling>, last: Sibling, x: Sibling)
    requires AllBelow(leq, init, last) && Compare(leq, x, last) > 0
    ensures Insert(leq, init + [x], last) == init + [last] + [x]
  {
    assert (init + [x])[..|init|] == init;
  }

  lemma SortSnoc(leq: Order, s: seq<Sibling>, x: Sibling)
    ensures StableSort(leq, s + [x]) == Insert(leq, StableSort(leq, s), x)
  {
    assert (s + [x])[..|s|] == s;
  }

  lemma BelongsInit(leq: Order, init: seq<Sibling>, last: Sibling, x: Sibling, p: nat)
    requires TotalOrder(leq) && Belongs(leq, init + [last], x, p)
    ensures Belongs(leq, init, x, if p <= |init| then p else |init|)
    ensures if p <= |init| then Compare(leq, x, last) < 0 else Compare(leq, x, last) > 0
  {
    assert forall i :: 0 <= i < |init| ==> (init + [last])[i] == init[i];
    assert (init + [last])[|init|] == last;
    CompareIsPreorder(leq, last, x, x);
    CompareIsPreorder(leq, x, last, x);
  }

  /** A sorted list with one element in the wrong place sorts to the list with it in the right place. */
  lemma {:induction false} SortMovesOne(leq: Order, s: seq<Sibling>, x: Sibling, from: nat, p: nat)
    requires TotalOrder(leq) && Sorted(leq, s) && Belongs(leq, s, x, p) && from <= |s|
    ensures StableSort(leq, Put(s, x, from)) == Put(s, x, p)
    decreases |s|
  {
    if from == |s| {
      PutAtEnd(s, x);
      SortSnoc(leq, s, x);
      SortedStays(leq, s);
      InsertAt(leq, s, x, p);
    } else {
      var init, last := s[..|s| - 1], s[|s| - 1];
      assert s == init + [last];
      SortedSnoc(leq, init, last);
      BelongsInit(leq, init, last, x, p);
      PutSnoc(init, last, x, from);
      SortSnoc(leq, Put(init, x, from), last);
      SortMovesOne(leq, init, x, from, if p <= |init| then p else |init|);
      if p <= |init| {
        AppendLast(leq, init, last, x, p);
      } else {
        PutAtEnd(init, x);
        InsertBeforeLast(leq, init, last, x);
        PutAtEnd(s, x);
      }
    }
  }

  // ---------------------------------------------------------------- planning a move

  /** Where `findIndex` finds the id. */
  function IndexOf(s: seq<Sibling>, id: Text): (k: Option<nat>)
    ensures k.Some? ==> k.value < |s| && s[k.value].id == id
    ensures k.None? ==> forall i :: 0 <= i < |s| ==> s[i].id != id
    ensures k.Some? ==> forall i :: 0 <= i < k.value ==> s[i].id != id
    decreases |s|
  {
    if s == [] then None
    else
      var before := IndexOf(s[..|s| - 1], id);
      if before.Some? then before
      else if s[|s| - 1].id == id then Some(|s| - 1)
      else None
  }

  function Without(s: seq<Sibling>, k: nat): (r: seq<Sibling>)
    requires k < |s|
    ensures |r| == |s| - 1
  {
    s[..k] + s[k + 1..]
  }

  function Clamped(target: int, length: nat): (k: nat)
    ensures k <= length
    ensures 0 <= target <= length ==> k == target
  {
    Max(0, Min(target, length))
  }

  /** The list as the user left it. */
  function Reordered(s: seq<Sibling>, from: nat, to: nat): (r: seq<Sibling>)
    requires from < |s| && to < |s|
    ensures |r| == |s| && r[to] == s[from]
  {
    Put(Without(s, from), s[from], to)
  }

  /** New ranks for a whole list, in its order. */
  function Renumbered(s: seq<Sibling>): (r: seq<Assignment>)
    ensures |r| == |s|
    ensures forall k :: 0 <= k < |s| ==> r[k] == Assignment(s[k].id, (k + 1) * STEP)
  {
    seq(|s|, k requires 0 <= k < |s| => Assignment(s[k].id, (k + 1) * STEP))
  }

  function RankBefore(r: seq<Sibling>, k: nat): Option<int>
    requires k < |r|
  {
    if k > 0 then r[k - 1].rank else None
  }

  function RankAfter(r: seq<Sibling>, k: nat): Option<int>
    requires k < |r|
  {
    if k + 1 < |r| then r[k + 1].rank else None
  }

  /** `planGroupReorder`: the ranks to change so that `moved` comes to stand at `target`. Half of a
      negative number rounds down, as `Math.floor` does. */
  function Plan(s: seq<Sibling>, moved: Text, target: int): seq<Assignment> {
    var from := IndexOf(s, moved);
    if from.None? then []
    else
      var k := Clamped(target, |s| - 1);
      var r := Reordered(s, from.value, k);
      var first, last := k == 0, k + 1 == |r|;
      var before, after := RankBefore(r, k), RankAfter(r, k);
      if first && after.Some? then [Assignment(moved, after.value - STEP)]
      else if last && before.Some? then [Assignment(moved, before.value + STEP)]
      else if before.Some? && after.Some? && after.value - before.value > 1 then [Assignment(moved, (before.value + after.value) / 2)]
      else if first && last then [Assignment(moved, STEP)]
      else Renumbered(r)
  }

  method PlanGroupReorder(siblings: seq<Sibling>, movedId: Text, targetIndex: int) returns (plan: seq<Assignment>)
    ensures plan == Plan(siblings, movedId, targetIndex)
  {
    var found := IndexOf(siblings, movedId);
    if found.None? {
      return [];
    }
    var from := found.value;
    var reordered := siblings;
    var moved := reordered[from];
    reordered := reordered[..from] + reordered[from + 1..];
    var clamped := Max(0, Min(targetIndex, |reordered|));
    reordered := reordered[..clamped] + [moved] + reordered[clamped..];
    assert reordered == Reordered(siblings, from, clamped);

    var before := if clamped > 0 then Some(reordered[clamped - 1]) else None;
    var after := if clamped + 1 < |reordered| then Some(reordered[clamped + 1]) else None;
    var beforeRank := if before.Some? then before.value.rank else None;
    var afterRank := if after.Some? then after.value.rank else None;
    if before.None? && afterRank.Some? {
      return [Assignment(moved.id, afterRank.value - STEP)];
    }
    if after.None? && beforeRank.Some? {
      return [Assignment(moved.id, beforeRank.value + STEP)];
    }
    if beforeRank.Some? && afterRank.Some? && afterRank.value - beforeRank.value > 1 {
      return [Assignment(moved.id, (beforeRank.value + afterRank.value) / 2)];
    }
    if before.None? && after.None? {
      return [Assignment(moved.id, STEP)];
    }
    plan := Renumbered(reordered);
  }

  // ---------------------------------------------------------------- what the plan achieves

  function RankFor(plan: seq<Assignment>, id: Text): Option<int>
    decreases |plan|
  {
    if plan == [] then None
    else if plan[|plan| - 1].id == id then Some(plan[|plan| - 1].rank)
    else RankFor(plan[..|plan| - 1], id)
  }

  function Assigned(x: Sibling, plan: seq<Assignment>): (r: Sibling)
    ensures r.id == x.id && r.path == x.path
  {
    var rank := RankFor(plan, x.id);
    if rank.Some? then x.(rank := rank) else x
  }

  /** The records after their new ranks have been written. */
  function Applied(s: seq<Sibling>, plan: seq<Assignment>): (r: seq<Sibling>)
    ensures |r| == |s|
    ensures forall k :: 0 <= k < |s| ==> r[k] == Assigned(s[k], plan)
  {
    seq(|s|, k requires 0 <= k < |s| => Assigned(s[k], plan))
  }

  predicate UniqueIds(s: seq<Sibling>) {
    forall i, j :: 0 <= i < j < |s| ==> s[i].id != s[j].id
  }

  lemma {:induction false} RankForNone(plan: seq<Assignment>, id: Text)
    requires forall k :: 0 <= k < |plan| ==> plan[k].id != id
    ensures RankFor(plan, id) == None
    decreases |plan|
  {
    if plan != [] {
      RankForNone(plan[..|plan| - 1], id);
    }
  }

  lemma {:induction false} RankForSome(plan: seq<Assignment>, k: nat)
    requires k < |plan|
    requires forall i, j :: 0 <= i < j < |plan| ==> plan[i].id != plan[j].id
    ensures RankFor(plan, plan[k].id) == Some(plan[k].rank)
    decreases |plan|
  {
    if k < |plan| - 1 {
      RankForSome(plan[..|plan| - 1], k);
    }
  }

  lemma SortedWithout(leq: Order, s: seq<Sibling>, k: nat)
    requires k < |s| && Sorted(leq, s)
    ensures Sorted(leq, Without(s, k))
  {
    var r := Without(s, k);
    assert forall i :: 0 <= i < |r| ==> r[i] == s[if i < k then i else i + 1];
  }

  lemma PutBack(s: seq<Sibling>, k: nat)
    requires k < |s|
    ensures Put(Without(s, k), s[k], k) == s
  {
  }

  /** One record changed: the others are the rest of the list, untouched. */
  lemma AppliedOne(s: seq<Sibling>, k: nat, rank: int)
    requires k < |s| && UniqueIds(s)
    ensures Applied(s, [Assignment(s[k].id, rank)]) == Put(Without(s, k), s[k].(rank := Some(rank)), k)
  {
    var plan := [Assignment(s[k].id, rank)];
    forall i | 0 <= i < |s| ensures Applied(s, plan)[i] == Put(Without(s, k), s[k].(rank := Some(rank)), k)[i] {
      if i == k {
        RankForSome(plan, 0);
      } else {
        RankForNone(plan, s[i].id);
      }
    }
  }

  lemma WithoutPut(s: seq<Sibling>, x: Sibling, k: nat)
    requires k <= |s|
    ensures Without(Put(s, x, k), k) == s
  {
  }

  lemma PutUnique(s: seq<Sibling>, x: Sibling, k: nat)
    requires k <= |s|
    ensures UniqueIds(Put(s, x, k)) <==> UniqueIds(s) && forall i :: 0 <= i < |s| ==> s[i].id != x.id
  {
    var r := Put(s, x, k);
    assert forall i :: 0 <= i < |s| ==> s[i] == r[if i < k then i else i + 1];
    assert r[k] == x;
  }

  lemma ReorderedUnique(s: seq<Sibling>, from: nat, to: nat)
    requires from < |s| && to < |s| && UniqueIds(s)
    ensures UniqueIds(Reordered(s, from, to))
    ensures Without(Reordered(s, from, to), to) == Without(s, from)
  {
    PutBack(s, from);
    PutUnique(Without(s, from), s[from], from);
    PutUnique(Without(s, from), s[from], to);
    WithoutPut(Without(s, from), s[from], to);
  }

  /** Changing one rank to one that belongs between the neighbours moves the record there. */
  lemma OneChangeMoves(leq: Order, s: seq<Sibling>, from: nat, to: nat, rank: int)
    requires TotalOrder(leq) && Sorted(leq, s) && UniqueIds(s) && from < |s| && to < |s|
    requires Belongs(leq, Without(s, from), s[from].(rank := Some(rank)), to)
    ensures var plan := [Assignment(s[from].id, rank)];
            StableSort(leq, Applied(s, plan)) == Applied(Reordered(s, from, to), plan)
  {
    var rest, x := Without(s, from), s[from].(rank := Some(rank));
    SortedWithout(leq, s, from);
    AppliedOne(s, from, rank);
    ReorderedUnique(s, from, to);
    AppliedOne(Reordered(s, from, to), to, rank);
    SortMovesOne(leq, rest, x, from, to);
  }

  // ---------------------------------------------------------------- where a rank belongs

  /** In a sorted list, what comes before a ranked element is ranked no higher. */
  lemma RanksAscend(leq: Order, s: seq<Sibling>, i: nat, j: nat)
    requires Sorted(leq, s) && i <= j < |s|
    ensures s[j].rank.Some? ==> s[i].rank.Some? && s[i].rank.value <= s[j].rank.value
  {
    assert i < j ==> Compare(leq, s[i], s[j]) <= 0;
  }

  /** A rank above the element before the place and below the element at it belongs there. */
  lemma RankBelongs(leq: Order, s: seq<Sibling>, x: Sibling, p: nat)
    requires Sorted(leq, s) && p <= |s| && x.rank.Some?
    requires p > 0 ==> s[p - 1].rank.Some? && s[p - 1].rank.value < x.rank.value
    requires p < |s| ==> s[p].rank.Some? ==> x.rank.value < s[p].rank.value
    ensures Belongs(leq, s, x, p)
  {
    forall i | 0 <= i < p ensures Compare(leq, s[i], x) < 0 {
      RanksAscend(leq, s, i, p - 1);
    }
    forall i | p <= i < |s| ensures Compare(leq, s[i], x) > 0 {
      if s[i].rank.Some? {
        RanksAscend(leq, s, p, i);
      }
    }
  }

  // ---------------------------------------------------------------- the whole list numbered anew

  /** The list with the ranks of `Renumbered`, written out. */
  lemma RenumberedRanks(r: seq<Sibling>)
    requires UniqueIds(r)
    ensures forall k :: 0 <= k < |r| ==> Applied(r, Renumbered(r))[k] == r[k].(rank := Some((k + 1) * STEP))
  {
    forall k | 0 <= k < |r| ensures Applied(r, Renumbered(r))[k] == r[k].(rank := Some((k + 1) * STEP)) {
      RankForSome(Renumbered(r), k);
    }
  }

  lemma RenumberedSorted(leq: Order, r: seq<Sibling>)
    requires UniqueIds(r)
    ensures Sorted(leq, Applied(r, Renumbered(r)))
  {
    RenumberedRanks(r);
  }

  lemma AppliedPut(s: seq<Sibling>, x: Sibling, k: nat, plan: seq<Assignment>)
    requires k <= |s|
    ensures Applied(Put(s, x, k), plan) == Put(Applied(s, plan), Assigned(x, plan), k)
  {
  }

  lemma AppliedWithout(s: seq<Sibling>, k: nat, plan: seq<Assignment>)
    requires k < |s|
    ensures Applied(Without(s, k), plan) == Without(Applied(s, plan), k)
  {
  }

  lemma OwnPlace(leq: Order, r: seq<Sibling>, k: nat)
    requires k < |r| && UniqueIds(r)
    ensures var list := Applied(r, Renumbered(r));
            Sorted(leq, Without(list, k)) && Belongs(leq, Without(list, k), list[k], k)
  {
    RenumberedRanks(r);
    RenumberedSorted(leq, r);
    var list := Applied(r, Renumbered(r));
    SortedWithout(leq, list, k);
    var rest := Without(list, k);
    assert k > 0 ==> rest[k - 1] == list[k - 1];
    assert k < |rest| ==> rest[k] == list[k + 1];
    RankBelongs(leq, rest, list[k], k);
  }

  lemma RenumberMoves(leq: Order, s: seq<Sibling>, from: nat, to: nat)
    requires TotalOrder(leq) && UniqueIds(s) && from < |s| && to < |s|
    ensures var r := Reordered(s, from, to);
            StableSort(leq, Applied(s, Renumbered(r))) == Applied(r, Renumbered(r))
  {
    var r := Reordered(s, from, to);
    var plan := Renumbered(r);
    var list, rest := Applied(r, plan), Without(s, from);
    ReorderedUnique(s, from, to);
    OwnPlace(leq, r, to);
    AppliedWithout(r, to, plan);
    PutBack(s, from);
    AppliedPut(rest, s[from], from, plan);
    PutBack(list, to);
    SortMovesOne(leq, Without(list, to), list[to], from, to);
  }

  // ---------------------------------------------------------------- the plan moves the record

  /** The neighbours in the reordered list are the elements around the place in the rest. */
  lemma Neighbours(s: seq<Sibling>, from: nat, to: nat)
    requires from < |s| && to < |s|
    ensures var rest, r := Without(s, from), Reordered(s, from, to);
            && RankBefore(r, to) == (if to > 0 then rest[to - 1].rank else None)
            && RankAfter(r, to) == (if to < |rest| then rest[to].rank else None)
  {
  }

  /** For siblings shown in order, writing the planned ranks and sorting again shows the list the user
      left: the moved record at the clamped place, the others as they were. It holds whether one rank
      changes or all of them. */
  lemma PlanMoves(leq: Order, s: seq<Sibling>, moved: Text, target: int)
    requires TotalOrder(leq) && Sorted(leq, s) && UniqueIds(s) && IndexOf(s, moved).Some?
    ensures var from, to := IndexOf(s, moved).value, Clamped(target, |s| - 1);
            StableSort(leq, Applied(s, Plan(s, moved, target))) == Applied(Reordered(s, from, to), Plan(s, moved, target))
  {
    var from, to := IndexOf(s, moved).value, Clamped(target, |s| - 1);
    var plan, rest := Plan(s, moved, target), Without(s, from);
    if |plan| == 1 && plan != Renumbered(Reordered(s, from, to)) {
      var rank := plan[0].rank;
      Neighbours(s, from, to);
      SortedWithout(leq, s, from);
      RankBelongs(leq, rest, s[from].(rank := Some(rank)), to);
      OneChangeMoves(leq, s, from, to, rank);
    } else {
      RenumberMoves(leq, s, from, to);
    }
  }

  function Ids(s: seq<Sibling>): seq<Text> {
    seq(|s|, k requires 0 <= k < |s| => s[k].id)
  }

  lemma IdsOfMove(s: seq<Sibling>, from: nat, to: nat, plan: seq<Assignment>)
    requires UniqueIds(s) && from < |s| && to < |s|
    ensures var shown := Applied(Reordered(s, from, to), plan);
            shown[to].id == s[from].id && Ids(Without(shown, to)) == Ids(Without(s, from))
  {
    ReorderedUnique(s, from, to);
    AppliedWithout(Reordered(s, from, to), to, plan);
    assert Ids(Applied(Without(s, from), plan)) == Ids(Without(s, from));
  }

  /** The same, read off by id: the moved record stands at the clamped place, the others in the order they had. */
  lemma MovedStandsAtTarget(leq: Order, s: seq<Sibling>, moved: Text, target: int)
    requires TotalOrder(leq) && Sorted(leq, s) && UniqueIds(s) && IndexOf(s, moved).Some?
    ensures var from, to := IndexOf(s, moved).value, Clamped(target, |s| - 1);
            var shown := StableSort(leq, Applied(s, Plan(s, moved, target)));
            shown[to].id == moved && Ids(Without(shown, to)) == Ids(Without(s, from))
  {
    PlanMoves(leq, s, moved, target);
    IdsOfMove(s, IndexOf(s, moved).value, Clamped(target, |s| - 1), Plan(s, moved, target));
  }

  /** An id that is not there changes nothing. */
  lemma UnknownStays(leq: Order, s: seq<Sibling>, moved: Text, target: int)
    requires Sorted(leq, s) && IndexOf(s, moved).None?
    ensures StableSort(leq, Applied(s, Plan(s, moved, target))) == s
  {
    assert Applied(s, []) == s;
    SortedStays(leq, s);
  }

  /** Seeding ranks in the order shown (`seedGroupRanks`) changes nothing that is shown. */
  lemma SeedKeepsOrder(leq: Order, s: seq<Sibling>)
    requires UniqueIds(s)
    ensures StableSort(leq, Applied(s, Renumbered(s))) == Applied(s, Renumbered(s))
  {
    RenumberedSorted(leq, s);
    SortedStays(leq, Applied(s, Renumbered(s)));
  }

  // ---------------------------------------------------------------- a new group

  method NextGroupRank(siblings: seq<Sibling>) returns (rank: int)
    ensures forall k :: 0 <= k < |siblings| && siblings[k].rank.Some? ==> siblings[k].rank.value + STEP <= rank
    ensures rank == STEP || exists k :: 0 <= k < |siblings| && siblings[k].rank == Some(rank - STEP)
    ensures (forall k :: 0 <= k < |siblings| ==> siblings[k].rank.None?) ==> rank == STEP
  {
    var max: Option<int> := None;
    for index := 0 to |siblings|
      invariant forall k :: 0 <= k < index && siblings[k].rank.Some? ==> max.Some? && siblings[k].rank.value <= max.value
      invariant max.Some? ==> exists k :: 0 <= k < index && siblings[k].rank == max
    {
      var sibling := siblings[index];
      if sibling.rank.Some? && (max.None? || sibling.rank.value > max.value) {
        max := sibling.rank;
      }
    }
    rank := if max.None? then STEP else max.value + STEP;
  }

  /** A new group with a rank above all others is shown behind every ranked sibling and before the rest. */
  lemma NewGroupGoesLast(leq: Order, s: seq<Sibling>, x: Sibling, ranked: nat)
    requires TotalOrder(leq) && Sorted(leq, s) && x.rank.Some? && ranked <= |s|
    requires forall k :: 0 <= k < |s| ==> (s[k].rank.Some? <==> k < ranked)
    requires forall k :: 0 <= k < ranked ==> s[k].rank.value + STEP <= x.rank.value
    ensures StableSort(leq, s + [x]) == s[..ranked] + [x] + s[ranked..]
  {
    RankBelongs(leq, s, x, ranked);
    SortMovesOne(leq, s, x, |s|, ranked);
    PutAtEnd(s, x);
  }
}
