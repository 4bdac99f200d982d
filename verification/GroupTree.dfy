/** The tree of group paths and its walk (`collectGroupPaths` and `orderGroupPaths` in
    `packages/shared-core/src/group-paths.ts`). */
module GroupTree {
  import opened Words
  import opened JsText
  import GroupReorder

  type Order = GroupReorder.Order
  type Sibling = GroupReorder.Sibling

  /** How the path above a path is found; the empty string stands above the top. */
  type Up = Text -> Text

  /** A path with the paths above it: what the walk needs to know of a node. */
  predicate IsNode(up: Up, x: Text) {
    x != [] && |up(x)| < |x|
  }

  predicate Nodes(up: Up, all: seq<Text>) {
    forall k :: 0 <= k < |all| ==> IsNode(up, all[k])
  }

  /** `a` is `x` or lies above it. */
  predicate Above(up: Up, x: Text, a: Text)
    decreases |x|
  {
    x == a || (IsNode(up, x) && Above(up, up(x), a))
  }

  lemma {:induction false} AboveShorter(up: Up, x: Text, a: Text)
    requires Above(up, x, a)
    ensures |a| <= |x|
    ensures |a| == |x| ==> a == x
    decreases |x|
  {
    if x != a {
      AboveShorter(up, up(x), a);
    }
  }

  lemma {:induction false} AboveTrans(up: Up, x: Text, y: Text, z: Text)
    requires Above(up, x, y) && Above(up, y, z)
    ensures Above(up, x, z)
    decreases |x|
  {
    if x != y {
      AboveTrans(up, up(x), y, z);
    }
  }

  /** Two paths above a third lie one above the other. */
  lemma {:induction false} AboveChain(up: Up, x: Text, a: Text, b: Text)
    requires Above(up, x, a) && Above(up, x, b)
    ensures Above(up, a, b) || Above(up, b, a)
    decreases |x|
  {
    if x != a && x != b {
      AboveChain(up, up(x), a, b);
    }
  }

  /** No path lies below two siblings. */
  lemma SiblingsApart(up: Up, x: Text, a: Text, b: Text)
    requires IsNode(up, a) && IsNode(up, b) && up(a) == up(b) && a != b
    requires Above(up, x, a)
    ensures !Above(up, x, b)
  {
    if Above(up, x, b) {
      AboveChain(up, x, a, b);
      if Above(up, a, b) {
        AboveShorter(up, up(a), b);
      } else {
        AboveShorter(up, up(b), a);
      }
    }
  }

  // ---------------------------------------------------------------- the walk

  /** The bucket of `childrenByParent`, in the order the paths were collected. */
  function Children(up: Up, all: seq<Text>, parent: Text): (r: seq<Text>)
    ensures |r| <= |all|
    ensures forall x :: x in r <==> x in all && up(x) == parent
    decreases |all|
  {
    if all == [] then []
    else
      var x := all[|all| - 1];
      Children(up, all[..|all| - 1], parent) + if up(x) == parent then [x] else []
  }

  /** What the comparison sees of a path: its record, or the path alone. */
  type Records = map<Text, Sibling>

  function Seen(records: Records, x: Text): (r: Sibling) {
    if x in records then records[x].(path := x) else GroupReorder.Sibling([], x, None)
  }

  function SeenAll(records: Records, s: seq<Text>): (r: seq<Sibling>)
    ensures |r| == |s| && forall k :: 0 <= k < |s| ==> r[k] == Seen(records, s[k])
  {
    seq(|s|, k requires 0 <= k < |s| => Seen(records, s[k]))
  }

  function PathsOf(s: seq<Sibling>): (r: seq<Text>)
    ensures |r| == |s| && forall k :: 0 <= k < |s| ==> r[k] == s[k].path
  {
    seq(|s|, k requires 0 <= k < |s| => s[k].path)
  }

  function SortedPaths(leq: Order, records: Records, s: seq<Text>): (r: seq<Text>)
    ensures |r| == |s|
  {
    PathsOf(GroupReorder.StableSort(leq, SeenAll(records, s)))
  }

  ghost predicate Ordered(leq: Order, records: Records, s: seq<Text>) {
    forall i, j :: 0 <= i < j < |s| ==> GroupReorder.Compare(leq, Seen(records, s[i]), Seen(records, s[j])) <= 0
  }

  predicate Distinct<T(==)>(s: seq<T>) {
    forall i, j :: 0 <= i < j < |s| ==> s[i] != s[j]
  }

  lemma {:induction false} DistinctCounts<T>(s: seq<T>)
    ensures Distinct(s) <==> forall x :: x in s ==> multiset(s)[x] == 1
    decreases |s|
  {
    if s != [] {
      var init, last := s[..|s| - 1], s[|s| - 1];
      assert s == init + [last];
      DistinctCounts(init);
      assert forall i :: 0 <= i < |init| ==> s[i] == init[i];
      if Distinct(s) {
        assert last !in init;
        forall x | x in s ensures multiset(s)[x] == 1 {
          assert x == last || x in init;
        }
      } else if Distinct(init) {
        assert last in init && last in multiset(init);
        assert last in s && multiset(s)[last] > 1;
      } else {
        var x :| x in init && multiset(init)[x] != 1;
        assert x in multiset(init);
        assert x in s && multiset(s)[x] > 1;
      }
    }
  }

  /** Sorting keeps the members, once each, and orders them. */
  lemma SortedPathsKeep(leq: Order, records: Records, s: seq<Text>)
    requires GroupReorder.TotalOrder(leq)
    ensures Ordered(leq, records, SortedPaths(leq, records, s))
    ensures forall x :: x in SortedPaths(leq, records, s) <==> x in s
    ensures Distinct(s) ==> Distinct(SortedPaths(leq, records, s))
  {
    var seen := SeenAll(records, s);
    var sorted := GroupReorder.StableSort(leq, seen);
    GroupReorder.SortIsStable(leq, seen, GroupReorder.Sibling([], [], None));
    SameMembers(sorted, seen);
    SortedAreSeen(records, s, sorted);
    SortedAreOrdered(leq, records, sorted);
    if Distinct(s) {
      DistinctSeen(records, s, sorted);
    }
  }

  lemma SortedAreSeen(records: Records, s: seq<Text>, sorted: seq<Sibling>)
    requires forall x :: x in sorted <==> x in SeenAll(records, s)
    ensures forall k :: 0 <= k < |sorted| ==> sorted[k] == Seen(records, PathsOf(sorted)[k])
    ensures forall x :: x in PathsOf(sorted) <==> x in s
  {
    var seen := SeenAll(records, s);
    forall k | 0 <= k < |sorted| ensures sorted[k] == Seen(records, sorted[k].path) && sorted[k].path in s {
      assert sorted[k] in seen;
    }
    forall x | x in s ensures x in PathsOf(sorted) {
      var k :| 0 <= k < |s| && s[k] == x;
      assert seen[k] in sorted;
      var m :| 0 <= m < |sorted| && sorted[m] == seen[k];
      assert PathsOf(sorted)[m] == x;
    }
  }

  lemma SortedAreOrdered(leq: Order, records: Records, sorted: seq<Sibling>)
    requires GroupReorder.Sorted(leq, sorted)
    requires forall k :: 0 <= k < |sorted| ==> sorted[k] == Seen(records, PathsOf(sorted)[k])
    ensures Ordered(leq, records, PathsOf(sorted))
  {
  }

  lemma DistinctSeen(records: Records, s: seq<Text>, sorted: seq<Sibling>)
    requires Distinct(s) && multiset(sorted) == multiset(SeenAll(records, s))
    requires forall k :: 0 <= k < |sorted| ==> sorted[k] == Seen(records, PathsOf(sorted)[k])
    ensures Distinct(PathsOf(sorted))
  {
    var seen := SeenAll(records, s);
    assert Distinct(seen);
    DistinctCounts(seen);
    SameMembers(sorted, seen);
    DistinctCounts(sorted);
  }

  lemma SameMembers(a: seq<Sibling>, b: seq<Sibling>)
    requires multiset(a) == multiset(b)
    ensures forall x :: x in a <==> x in b
  {
    forall x ensures x in a <==> x in b {
      assert x in a <==> x in multiset(a);
      assert x in b <==> x in multiset(b);
    }
  }

  predicate Bounded(all: seq<Text>, bound: nat) {
    forall k :: 0 <= k < |all| ==> |all[k]| <= bound
  }

  /** The children of a node, in the order they are shown. */
  function Shown(up: Up, leq: Order, records: Records, all: seq<Text>, parent: Text): (r: seq<Text>)
    ensures |r| <= |all|
  {
    SortedPaths(leq, records, Children(up, all, parent))
  }

  lemma ShownAre(up: Up, leq: Order, records: Records, all: seq<Text>, parent: Text)
    requires GroupReorder.TotalOrder(leq)
    ensures forall x :: x in Shown(up, leq, records, all, parent) <==> x in all && up(x) == parent
    ensures Ordered(leq, records, Shown(up, leq, records, all, parent))
    ensures Distinct(all) ==> Distinct(Shown(up, leq, records, all, parent))
  {
    SortedPathsKeep(leq, records, Children(up, all, parent));
    if Distinct(all) {
      ChildrenDistinct(up, all, parent);
    }
  }

  lemma {:induction false} ChildrenDistinct(up: Up, all: seq<Text>, parent: Text)
    requires Distinct(all)
    ensures Distinct(Children(up, all, parent))
    decreases |all|
  {
    if all != [] {
      ChildrenDistinct(up, all[..|all| - 1], parent);
      assert forall k :: 0 <= k < |all| - 1 ==> all[..|all| - 1][k] == all[k];
    }
  }

  /** What the walk is over: distinct nodes no longer than `bound`. */
  ghost predicate Forest(up: Up, leq: Order, all: seq<Text>, bound: nat) {
    GroupReorder.TotalOrder(leq) && Nodes(up, all) && Distinct(all) && Bounded(all, bound)
  }

  /** The list is in order and each of its members is a path directly below `parent`. */
  ghost predicate Offspring(up: Up, leq: Order, records: Records, all: seq<Text>, children: seq<Text>, parent: Text) {
    && |children| <= |all|
    && (forall k :: 0 <= k < |children| ==> children[k] in all && up(children[k]) == parent)
    && Ordered(leq, records, children)
    && Distinct(children)
  }

  lemma OffspringLonger(up: Up, leq: Order, records: Records, all: seq<Text>, children: seq<Text>, parent: Text, bound: nat)
    requires Forest(up, leq, all, bound) && Offspring(up, leq, records, all, children, parent)
    ensures forall k :: 0 <= k < |children| ==> IsNode(up, children[k]) && |parent| < |children[k]| <= bound
  {
  }

  /** `emit(parent)`: the paths below `parent`, each directly followed by its own. */
  ghost function Walk(up: Up, leq: Order, records: Records, all: seq<Text>, parent: Text, bound: nat): seq<Text>
    requires Forest(up, leq, all, bound) && |parent| <= bound
    decreases bound - |parent|, |all| + 1
  {
    ShownAre(up, leq, records, all, parent);
    WalkAll(up, leq, records, all, Shown(up, leq, records, all, parent), parent, bound)
  }

  /** The loop of `emit` over the sorted children. */
  ghost function WalkAll(up: Up, leq: Order, records: Records, all: seq<Text>, children: seq<Text>, parent: Text, bound: nat): seq<Text>
    requires Forest(up, leq, all, bound) && |parent| <= bound && Offspring(up, leq, records, all, children, parent)
    decreases bound - |parent|, |children|
  {
    if children == [] then []
    else
      OffspringLonger(up, leq, records, all, children, parent, bound);
      [children[0]] + Walk(up, leq, records, all, children[0], bound) + WalkAll(up, leq, records, all, children[1..], parent, bound)
  }

  // ---------------------------------------------------------------- what the walk yields

  /** Everything below a node stands directly behind it. */
  ghost predicate Preorder(up: Up, r: seq<Text>) {
    && (forall i, j, k :: 0 <= i <= j <= k < |r| && Above(up, r[k], r[i]) ==> Above(up, r[j], r[i]))
    && (forall i, k :: 0 <= k < i < |r| ==> !Above(up, r[k], r[i]))
  }

  /** Siblings stand in their order. */
  ghost predicate SiblingsOrdered(up: Up, leq: Order, records: Records, r: seq<Text>) {
    forall i, j :: 0 <= i < j < |r| && up(r[i]) == up(r[j]) ==>
      GroupReorder.Compare(leq, Seen(records, r[i]), Seen(records, r[j])) <= 0
  }

  /** Neither list holds a path above or below one of the other. */
  ghost predicate Unrelated(up: Up, a: seq<Text>, b: seq<Text>) {
    forall i, j :: 0 <= i < |a| && 0 <= j < |b| ==> !Above(up, a[i], b[j]) && !Above(up, b[j], a[i])
  }

  lemma PreorderConcat(up: Up, a: seq<Text>, b: seq<Text>)
    requires Preorder(up, a) && Preorder(up, b) && Unrelated(up, a, b)
    ensures Preorder(up, a + b)
  {
    var r := a + b;
    assert forall i :: 0 <= i < |a| ==> r[i] == a[i];
    assert forall i :: |a| <= i < |r| ==> r[i] == b[i - |a|];
    forall i, j, k | 0 <= i <= j <= k < |r| && Above(up, r[k], r[i]) ensures Above(up, r[j], r[i]) {
      if k < |a| {
        assert Above(up, a[k], a[i]);
      } else if i >= |a| {
        assert Above(up, b[k - |a|], b[i - |a|]);
      }
    }
  }

  lemma RootStandsAbove(up: Up, c: Text, r: seq<Text>, i: nat, j: nat, k: nat)
    requires Preorder(up, r) && i <= j <= k <= |r|
    requires forall n :: 0 <= n < |r| ==> Above(up, r[n], c)
    requires Above(up, ([c] + r)[k], ([c] + r)[i])
    ensures Above(up, ([c] + r)[j], ([c] + r)[i])
  {
    if i > 0 {
      assert Above(up, r[k - 1], r[i - 1]);
    }
  }

  lemma PreorderRoot(up: Up, c: Text, r: seq<Text>)
    requires Preorder(up, r)
    requires forall k :: 0 <= k < |r| ==> Above(up, r[k], c) && r[k] != c
    ensures Preorder(up, [c] + r)
  {
    var s := [c] + r;
    assert forall i :: 0 < i < |s| ==> s[i] == r[i - 1];
    forall k | 0 <= k < |r| ensures !Above(up, c, r[k]) {
      AboveShorter(up, r[k], c);
      if Above(up, c, r[k]) {
        AboveShorter(up, c, r[k]);
      }
    }
    forall i, j, k | 0 <= i <= j <= k < |s| && Above(up, s[k], s[i]) ensures Above(up, s[j], s[i]) {
      RootStandsAbove(up, c, r, i, j, k);
    }
  }

  /** Every path of the list that has a parent has it in the list. */
  ghost predicate Closed(up: Up, all: seq<Text>) {
    forall k :: 0 <= k < |all| ==> up(all[k]) == [] || up(all[k]) in all
  }

  /** Below a node, every path goes through one of its children. */
  lemma {:induction false} ChildAbove(up: Up, all: seq<Text>, x: Text, parent: Text) returns (c: Text)
    requires Nodes(up, all) && Closed(up, all) && x in all && Above(up, x, parent) && x != parent
    ensures c in all && up(c) == parent && Above(up, x, c)
    decreases |x|
  {
    if up(x) == parent {
      c := x;
    } else {
      c := ChildAbove(up, all, up(x), parent);
    }
  }

  ghost predicate BelowOne(up: Up, x: Text, children: seq<Text>) {
    exists k :: 0 <= k < |children| && Above(up, x, children[k])
  }

  /** The block of one child: the child and all below it. */
  ghost predicate Block(up: Up, all: seq<Text>, c: Text, block: seq<Text>) {
    forall x :: x in block <==> x in all && Above(up, x, c)
  }

  ghost predicate Blocks(up: Up, all: seq<Text>, children: seq<Text>, r: seq<Text>) {
    forall x :: x in r <==> x in all && BelowOne(up, x, children)
  }

  lemma BlocksApart(up: Up, leq: Order, records: Records, all: seq<Text>, children: seq<Text>, parent: Text, block: seq<Text>, rest: seq<Text>)
    requires Nodes(up, all) && Offspring(up, leq, records, all, children, parent) && children != []
    requires Block(up, all, children[0], block) && Blocks(up, all, children[1..], rest)
    ensures Unrelated(up, block, rest)
  {
    var c := children[0];
    forall i, j | 0 <= i < |block| && 0 <= j < |rest|
      ensures !Above(up, block[i], rest[j]) && !Above(up, rest[j], block[i])
    {
      var x, y := block[i], rest[j];
      assert x in block && y in rest;
      var k :| 0 <= k < |children[1..]| && Above(up, y, children[1..][k]);
      var d := children[k + 1];
      assert d == children[1..][k] && c != d;
      if Above(up, x, y) {
        AboveTrans(up, x, y, d);
        SiblingsApart(up, x, c, d);
      }
      if Above(up, y, x) {
        AboveTrans(up, y, x, c);
        SiblingsApart(up, y, c, d);
      }
    }
  }

  /** A path with the same parent as a child is a child. */
  lemma SiblingIsChild(up: Up, y: Text, d: Text, parent: Text)
    requires IsNode(up, d) && up(d) == parent && up(y) == parent && Above(up, y, d)
    ensures y == d
  {
    if y != d {
      AboveShorter(up, parent, d);
    }
  }

  lemma BlockOrdered(up: Up, leq: Order, records: Records, c: Text, w: seq<Text>)
    requires IsNode(up, c) && SiblingsOrdered(up, leq, records, w)
    requires forall k :: 0 <= k < |w| ==> Above(up, w[k], c) && w[k] != c
    ensures SiblingsOrdered(up, leq, records, [c] + w)
  {
    var r := [c] + w;
    forall i, j | 0 <= i < j < |r| && up(r[i]) == up(r[j])
      ensures GroupReorder.Compare(leq, Seen(records, r[i]), Seen(records, r[j])) <= 0
    {
      if i == 0 {
        SiblingIsChild(up, w[j - 1], c, up(c));
      } else {
        assert r[i] == w[i - 1] && r[j] == w[j - 1];
      }
    }
  }

  lemma BlocksOrdered(up: Up, leq: Order, records: Records, all: seq<Text>, children: seq<Text>, parent: Text, block: seq<Text>, rest: seq<Text>)
    requires Nodes(up, all) && Offspring(up, leq, records, all, children, parent) && children != []
    requires Block(up, all, children[0], block) && Blocks(up, all, children[1..], rest)
    requires SiblingsOrdered(up, leq, records, block) && SiblingsOrdered(up, leq, records, rest)
    ensures SiblingsOrdered(up, leq, records, block + rest)
  {
    var c, r := children[0], block + rest;
    forall i, j | 0 <= i < j < |r| && up(r[i]) == up(r[j])
      ensures GroupReorder.Compare(leq, Seen(records, r[i]), Seen(records, r[j])) <= 0
    {
      if j < |block| {
        assert r[i] == block[i] && r[j] == block[j];
      } else if i >= |block| {
        assert r[i] == rest[i - |block|] && r[j] == rest[j - |block|];
      } else {
        var x, y := block[i], rest[j - |block|];
        assert x in block && y in rest;
        var k :| 0 <= k < |children[1..]| && Above(up, y, children[1..][k]);
        var d := children[k + 1];
        assert d == children[1..][k] && c != d;
        if x == c {
          SiblingIsChild(up, y, d, parent);
        } else {
          assert Above(up, y, c);
          SiblingsApart(up, y, c, d);
        }
      }
    }
  }

  /** What the walk below a node yields: exactly the paths below it, each subtree in one piece behind its
      root, siblings in order. */
  lemma {:induction false} WalkIs(up: Up, leq: Order, records: Records, all: seq<Text>, parent: Text, bound: nat)
    requires Forest(up, leq, all, bound) && Closed(up, all) && |parent| <= bound
    ensures var r := Walk(up, leq, records, all, parent, bound);
            && (forall x :: x in r <==> x in all && x != parent && Above(up, x, parent))
            && Preorder(up, r) && SiblingsOrdered(up, leq, records, r)
    decreases bound - |parent|, |all| + 1
  {
    ShownAre(up, leq, records, all, parent);
    var children := Shown(up, leq, records, all, parent);
    WalkAllIs(up, leq, records, all, children, parent, bound);
    forall x ensures x in all && BelowOne(up, x, children) <==> x in all && x != parent && Above(up, x, parent) {
      if x in all {
        BelowThroughChild(up, all, children, x, parent);
      }
    }
  }

  lemma BelowThroughChild(up: Up, all: seq<Text>, children: seq<Text>, x: Text, parent: Text)
    requires Nodes(up, all) && Closed(up, all) && x in all
    requires forall c :: c in children <==> c in all && up(c) == parent
    ensures BelowOne(up, x, children) <==> x != parent && Above(up, x, parent)
  {
    if BelowOne(up, x, children) {
      var k :| 0 <= k < |children| && Above(up, x, children[k]);
      assert children[k] in children;
      assert Above(up, children[k], parent);
      AboveTrans(up, x, children[k], parent);
      AboveShorter(up, x, children[k]);
    }
    if x != parent && Above(up, x, parent) {
      var c := ChildAbove(up, all, x, parent);
      assert c in children;
    }
  }

  lemma {:induction false} WalkAllIs(up: Up, leq: Order, records: Records, all: seq<Text>, children: seq<Text>, parent: Text, bound: nat)
    requires Forest(up, leq, all, bound) && Closed(up, all) && |parent| <= bound && Offspring(up, leq, records, all, children, parent)
    ensures var r := WalkAll(up, leq, records, all, children, parent, bound);
            Blocks(up, all, children, r) && Preorder(up, r) && SiblingsOrdered(up, leq, records, r)
    decreases bound - |parent|, |children|
  {
    if children != [] {
      OffspringLonger(up, leq, records, all, children, parent, bound);
      var c := children[0];
      var w, rest := Walk(up, leq, records, all, c, bound), WalkAll(up, leq, records, all, children[1..], parent, bound);
      WalkIs(up, leq, records, all, c, bound);
      WalkAllIs(up, leq, records, all, children[1..], parent, bound);
      var block := [c] + w;
      forall k | 0 <= k < |w| ensures Above(up, w[k], c) && w[k] != c {
        assert w[k] in w;
      }
      PreorderRoot(up, c, w);
      BlockOrdered(up, leq, records, c, w);
      assert Block(up, all, c, block);
      BlocksApart(up, leq, records, all, children, parent, block, rest);
      PreorderConcat(up, block, rest);
      BlocksOrdered(up, leq, records, all, children, parent, block, rest);
      BlocksJoin(up, all, children, block, rest);
    }
  }

  lemma BlocksJoin(up: Up, all: seq<Text>, children: seq<Text>, block: seq<Text>, rest: seq<Text>)
    requires children != [] && Block(up, all, children[0], block) && Blocks(up, all, children[1..], rest)
    ensures Blocks(up, all, children, block + rest)
  {
    forall x ensures BelowOne(up, x, children) <==> Above(up, x, children[0]) || BelowOne(up, x, children[1..]) {
      if BelowOne(up, x, children[1..]) {
        var k :| 0 <= k < |children[1..]| && Above(up, x, children[1..][k]);
        assert Above(up, x, children[k + 1]);
      }
      if BelowOne(up, x, children) && !Above(up, x, children[0]) {
        var k :| 0 <= k < |children| && Above(up, x, children[k]);
        assert Above(up, x, children[1..][k - 1]);
      }
    }
  }

  // ---------------------------------------------------------------- the walk as it is computed

  /** `childrenByParent`: the children of each path in the order of the list. */
  ghost predicate Buckets(up: Up, all: seq<Text>, childrenByParent: map<Text, seq<Text>>) {
    && (forall parent :: parent in childrenByParent ==> childrenByParent[parent] == Children(up, all, parent))
    && (forall parent :: parent !in childrenByParent ==> Children(up, all, parent) == [])
  }

  lemma ChildrenSnoc(up: Up, all: seq<Text>, k: nat, parent: Text)
    requires k < |all|
    ensures Children(up, all[..k + 1], parent) == Children(up, all[..k], parent) + if up(all[k]) == parent then [all[k]] else []
  {
    assert all[..k + 1][..k] == all[..k];
  }

  lemma BucketsSnoc(up: Up, all: seq<Text>, k: nat, buckets: map<Text, seq<Text>>, next: map<Text, seq<Text>>)
    requires k < |all| && Buckets(up, all[..k], buckets)
    requires var parent := up(all[k]);
             next == buckets[parent := (if parent in buckets then buckets[parent] else []) + [all[k]]]
    ensures Buckets(up, all[..k + 1], next)
  {
    forall parent ensures parent in next ==> next[parent] == Children(up, all[..k + 1], parent)
                  ensures parent !in next ==> Children(up, all[..k + 1], parent) == []
    {
      ChildrenSnoc(up, all, k, parent);
    }
  }

  method BucketsOf(up: Up, all: seq<Text>) returns (childrenByParent: map<Text, seq<Text>>)
    ensures Buckets(up, all, childrenByParent)
  {
    childrenByParent := map[];
    for index := 0 to |all|
      invariant Buckets(up, all[..index], childrenByParent)
    {
      var path := all[index];
      var parent := up(path);
      ghost var before := childrenByParent;
      if parent in childrenByParent {
        childrenByParent := childrenByParent[parent := childrenByParent[parent] + [path]];
      } else {
        childrenByParent := childrenByParent[parent := [path]];
      }
      assert [] + [path] == [path];
      BucketsSnoc(up, all, index, before, childrenByParent);
    }
    assert all[..|all|] == all;
  }

  lemma OffspringTail(up: Up, leq: Order, records: Records, all: seq<Text>, rest: seq<Text>, parent: Text)
    requires Offspring(up, leq, records, all, rest, parent) && rest != []
    ensures Offspring(up, leq, records, all, rest[1..], parent)
  {
  }

  lemma Regroup(before: seq<Text>, c: Text, below: seq<Text>, after: seq<Text>)
    ensures before + ([c] + below + after) == (before + [c] + below) + after
  {
  }

  /** One turn of the loop of `emit`: a child, what is below it, and the children after it. */
  lemma WalkAllStep(up: Up, leq: Order, records: Records, all: seq<Text>, rest: seq<Text>, parent: Text, bound: nat, before: seq<Text>)
    requires Forest(up, leq, all, bound) && |parent| <= bound
    requires Offspring(up, leq, records, all, rest, parent) && rest != []
    ensures Offspring(up, leq, records, all, rest[1..], parent)
    ensures |parent| < |rest[0]| <= bound
    ensures before + WalkAll(up, leq, records, all, rest, parent, bound)
            == (before + [rest[0]] + Walk(up, leq, records, all, rest[0], bound))
               + WalkAll(up, leq, records, all, rest[1..], parent, bound)
  {
    OffspringLonger(up, leq, records, all, rest, parent, bound);
    OffspringTail(up, leq, records, all, rest, parent);
    var below, after := Walk(up, leq, records, all, rest[0], bound), WalkAll(up, leq, records, all, rest[1..], parent, bound);
    Regroup(before, rest[0], below, after);
    assert WalkAll(up, leq, records, all, rest, parent, bound) == [rest[0]] + below + after;
  }

  /** `emit`: the paths below `parent` pushed onto `ordered`. */
  method Emit(up: Up, leq: Order, records: Records, childrenByParent: map<Text, seq<Text>>, parent: Text, ordered: seq<Text>,
              ghost all: seq<Text>, ghost bound: nat) returns (next: seq<Text>)
    requires Forest(up, leq, all, bound) && |parent| <= bound && Buckets(up, all, childrenByParent)
    ensures next == ordered + Walk(up, leq, records, all, parent, bound)
    decreases bound - |parent|, |all| + 1
  {
    ShownAre(up, leq, records, all, parent);
    if parent !in childrenByParent {
      assert Shown(up, leq, records, all, parent) == [];
      return ordered;
    }
    var sorted := SortedPaths(leq, records, childrenByParent[parent]);
    next := ordered;
    var rest := sorted;
    ghost var whole := ordered + Walk(up, leq, records, all, parent, bound);
    while rest != []
      invariant Offspring(up, leq, records, all, rest, parent)
      invariant next + WalkAll(up, leq, records, all, rest, parent, bound) == whole
      decreases |rest|
    {
      WalkAllStep(up, leq, records, all, rest, parent, bound, next);
      next := Emit(up, leq, records, childrenByParent, rest[0], next + [rest[0]], all, bound);
      rest := rest[1..];
    }
  }

  function Longest(s: seq<Text>): (n: nat)
    ensures Bounded(s, n)
    decreases |s|
  {
    if s == [] then 0 else Max(Longest(s[..|s| - 1]), |s[|s| - 1]|)
  }

  method OrderPaths(up: Up, leq: Order, records: Records, all: seq<Text>) returns (ordered: seq<Text>)
    requires Forest(up, leq, all, Longest(all))
    ensures ordered == Walk(up, leq, records, all, [], Longest(all))
  {
    var childrenByParent := BucketsOf(up, all);
    ghost var bound := Longest(all);
    ordered := Emit(up, leq, records, childrenByParent, [], [], all, bound);
    assert [] + Walk(up, leq, records, all, [], bound) == Walk(up, leq, records, all, [], bound);
  }
}
