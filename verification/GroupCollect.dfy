/** Collecting all group paths in tree order (`collectGroupPaths` and `orderGroupPaths` in
    `packages/shared-core/src/group-paths.ts`). */
module GroupCollect {
  import opened Words
  import opened JsText
  import opened GroupPaths
  import opened GroupTree
  import GroupReorder

  datatype GroupRecord = GroupRecord(id: Text, name: Text, path: Text, parentPath: Option<Text>, sortRank: Option<int>,
                                     createdAt: Text, updatedAt: Text)

  function ParentOf(x: Text): Text {
    OrEmpty(Parent(Some(x)))
  }

  /** A path in its normalized form. */
  ghost predicate IsNormal(x: Text) {
    exists p :: IsPath(p) && p != [] && x == Join(p)
  }

  lemma ParentOfJoin(p: seq<Text>)
    requires IsPath(p)
    ensures ParentOf(Join(p)) == Join(Init(p))
    ensures p != [] ==> |Join(Init(p))| < |Join(p)|
  {
    assert Parent(Some(Join(p))) == AsPath(Init(p)) by {
      SegmentsOfJoin(p);
      ParentIsInit(Some(Join(p)));
    }
    InitShorter(p);
  }

  lemma InitShorter(p: seq<Text>)
    requires IsPath(p)
    ensures p != [] ==> |Join(Init(p))| < |Join(p)|
  {
    JoinNonEmpty(p);
    if |p| > 1 {
      assert p == Init(p) + [p[|p| - 1]];
      JoinConcat(Init(p), [p[|p| - 1]]);
    }
  }

  lemma NormalIsNode(x: Text)
    requires IsNormal(x)
    ensures IsNode(ParentOf, x)
  {
    var p :| IsPath(p) && p != [] && x == Join(p);
    ParentOfJoin(p);
    JoinNonEmpty(p);
  }

  /** Lying above in the tree is being a prefix in segments. */
  lemma {:induction false} AboveIsPrefix(p: seq<Text>, q: seq<Text>)
    requires IsPath(p) && IsPath(q)
    ensures Above(ParentOf, Join(p), Join(q)) <==> q <= p
    decreases |p|
  {
    ParentOfJoin(p);
    JoinNonEmpty(p);
    if Join(p) == Join(q) {
      JoinInjective(p, q);
    } else if p != [] {
      AboveIsPrefix(Init(p), q);
      assert q <= p ==> q == p || q <= Init(p);
    }
  }

  /** ... which is what the test on strings says. */
  lemma AboveIsWithin(x: Text, y: Text)
    requires IsNormal(x) && IsNormal(y)
    ensures Above(ParentOf, x, y) <==> IsWithin(Some(x), Some(y))
    ensures Above(ParentOf, x, [])
  {
    var p :| IsPath(p) && p != [] && x == Join(p);
    var q :| IsPath(q) && q != [] && y == Join(q);
    AboveIsPrefix(p, q);
    AboveIsPrefix(p, []);
    WithinIsPrefix(p, q);
    JoinNonEmpty(p);
    JoinNonEmpty(q);
  }

  // ---------------------------------------------------------------- the set of paths

  /** `x` is one of the first `n` paths on the way down to `p`. */
  ghost predicate OnTheWay(x: Text, p: seq<Text>, n: nat)
    requires n <= |p|
  {
    exists k :: 0 < k <= n && x == Join(p[..k])
  }

  /** `x` is the path named by `target`, or lies above it, and is not the root. */
  ghost predicate NamedBy(x: Text, target: Option<Text>) {
    OnTheWay(x, Segments(target), |Segments(target)|)
  }

  ghost predicate NamedByOne(x: Text, targets: seq<Option<Text>>) {
    exists i :: 0 <= i < |targets| && NamedBy(x, targets[i])
  }

  /** What the loops build: every path once, with all those above it. */
  ghost predicate Collected(paths: seq<Text>, targets: seq<Option<Text>>) {
    Distinct(paths) && forall x :: x in paths <==> NamedByOne(x, targets)
  }

  /** `paths.add(x)` on a set that keeps the order of insertion. */
  function Included(paths: seq<Text>, x: Text): (r: seq<Text>)
    ensures Distinct(paths) ==> Distinct(r)
    ensures forall y :: y in r <==> y in paths || y == x
  {
    if x in paths then paths else paths + [x]
  }

  method AppendPrefixes(paths: seq<Text>, segments: seq<Text>) returns (next: seq<Text>)
    requires Distinct(paths)
    ensures Distinct(next)
    ensures forall x :: x in next <==> x in paths || OnTheWay(x, segments, |segments|)
  {
    next := paths;
    for index := 0 to |segments|
      invariant Distinct(next)
      invariant forall x :: x in next <==> x in paths || OnTheWay(x, segments, index)
    {
      next := Included(next, Join(segments[..index + 1]));
    }
  }

  method AppendPathWithAncestors(paths: seq<Text>, targetPath: Option<Text>) returns (next: seq<Text>)
    requires Distinct(paths)
    ensures Distinct(next)
    ensures forall x :: x in next <==> x in paths || NamedBy(x, targetPath)
  {
    var normalized := Normalize(targetPath);
    ghost var p := Segments(targetPath);
    SegmentsArePath(targetPath);
    JoinNonEmpty(p);
    if normalized.None? {
      return paths;
    }
    SplitJoin(p);
    next := AppendPrefixes(paths, Split(normalized.value));
  }

  lemma NamedSnoc(targets: seq<Option<Text>>, target: Option<Text>)
    ensures forall x :: NamedByOne(x, targets + [target]) <==> NamedByOne(x, targets) || NamedBy(x, target)
  {
    var all := targets + [target];
    forall x ensures NamedByOne(x, all) <==> NamedByOne(x, targets) || NamedBy(x, target) {
      if NamedByOne(x, targets) {
        var i :| 0 <= i < |targets| && NamedBy(x, targets[i]);
        assert all[i] == targets[i];
      }
      if NamedBy(x, target) {
        assert all[|targets|] == target;
      }
      if NamedByOne(x, all) {
        var i :| 0 <= i < |all| && NamedBy(x, all[i]);
        assert i < |targets| ==> all[i] == targets[i];
      }
    }
  }

  lemma NamedIsNode(x: Text, target: Option<Text>)
    requires NamedBy(x, target)
    ensures IsNormal(x) && IsNode(ParentOf, x)
    ensures ParentOf(x) == [] || NamedBy(ParentOf(x), target)
  {
    var all := Segments(target);
    SegmentsArePath(target);
    var k :| 0 < k <= |all| && x == Join(all[..k]);
    PrefixIsNode(all, k);
  }

  lemma PrefixIsNode(all: seq<Text>, k: nat)
    requires IsPath(all) && 0 < k <= |all|
    ensures IsNormal(Join(all[..k])) && IsNode(ParentOf, Join(all[..k]))
    ensures ParentOf(Join(all[..k])) == [] || OnTheWay(ParentOf(Join(all[..k])), all, |all|)
  {
    var p := all[..k];
    assert IsPath(p);
    assert IsNormal(Join(p));
    NormalIsNode(Join(p));
    ParentOfJoin(p);
    assert Init(p) == all[..k - 1];
  }

  /** The paths collected are nodes of a forest: each stands below the root and brings the path above it. */
  lemma CollectedIsForest(paths: seq<Text>, targets: seq<Option<Text>>)
    requires Collected(paths, targets)
    ensures Nodes(ParentOf, paths) && Closed(ParentOf, paths)
    ensures forall x :: x in paths ==> IsNormal(x)
  {
    forall x | x in paths ensures IsNormal(x) && IsNode(ParentOf, x) && (ParentOf(x) == [] || ParentOf(x) in paths) {
      var i :| 0 <= i < |targets| && NamedBy(x, targets[i]);
      NamedIsNode(x, targets[i]);
    }
  }

  // ---------------------------------------------------------------- the order

  /** `new Map(groups.map(...))`: the last record with a path counts. */
  function RecordsOf(groups: seq<GroupRecord>): Records
    decreases |groups|
  {
    if groups == [] then map[]
    else
      var g := groups[|groups| - 1];
      RecordsOf(groups[..|groups| - 1])[g.path := GroupReorder.Sibling(g.id, g.path, g.sortRank)]
  }

  /** What the order looks at: the last record of a path, or nothing but the path. */
  lemma {:induction false} SeenIsLastRecord(groups: seq<GroupRecord>, x: Text)
    ensures var seen := Seen(RecordsOf(groups), x);
            || (seen == GroupReorder.Sibling([], x, None) && forall g :: g in groups ==> g.path != x)
            || exists k :: (0 <= k < |groups| && groups[k].path == x && seen == GroupReorder.Sibling(groups[k].id, x, groups[k].sortRank)
                            && forall later :: k < later < |groups| ==> groups[later].path != x)
    decreases |groups|
  {
    if groups != [] {
      var init, g := groups[..|groups| - 1], groups[|groups| - 1];
      assert groups == init + [g];
      SeenIsLastRecord(init, x);
      if g.path == x {
        assert groups[|init|].path == x;
      } else if exists k :: 0 <= k < |init| && init[k].path == x {
        var k :| 0 <= k < |init| && init[k].path == x && Seen(RecordsOf(init), x) == GroupReorder.Sibling(init[k].id, x, init[k].sortRank)
                 && forall later :: k < later < |init| ==> init[later].path != x;
        assert groups[k] == init[k] && forall later :: k < later < |init| ==> groups[later] == init[later];
      }
    }
  }

  /** Siblings stand in the order that is shown. */
  lemma SiblingsShown(leq: Order, records: Records, r: seq<Text>)
    requires GroupReorder.TotalOrder(leq) && SiblingsOrdered(ParentOf, leq, records, r)
    ensures forall i, j :: 0 <= i < j < |r| && Parent(Some(r[i])) == Parent(Some(r[j])) ==>
              GroupReorder.Precedes(leq, Seen(records, r[i]), Seen(records, r[j]))
  {
    forall i, j | 0 <= i < j < |r| && Parent(Some(r[i])) == Parent(Some(r[j]))
      ensures GroupReorder.Precedes(leq, Seen(records, r[i]), Seen(records, r[j]))
    {
      assert ParentOf(r[i]) == ParentOf(r[j]);
      GroupReorder.CompareMeans(leq, Seen(records, r[i]), Seen(records, r[j]));
    }
  }

  // ---------------------------------------------------------------- the whole

  /** A subtree stands in one piece behind its root, in terms of the test on strings. */
  ghost predicate TreeOrder(r: seq<Text>) {
    && (forall i, j, k :: 0 <= i <= j <= k < |r| && IsWithin(Some(r[k]), Some(r[i])) ==> IsWithin(Some(r[j]), Some(r[i])))
    && (forall i, k :: 0 <= k < i < |r| ==> !IsWithin(Some(r[k]), Some(r[i])))
  }

  lemma PreorderIsTreeOrder(r: seq<Text>)
    requires Preorder(ParentOf, r) && forall x :: x in r ==> IsNormal(x)
    ensures TreeOrder(r)
  {
    forall i, k | 0 <= i < |r| && 0 <= k < |r| ensures Above(ParentOf, r[k], r[i]) <==> IsWithin(Some(r[k]), Some(r[i])) {
      assert r[i] in r && r[k] in r;
      AboveIsWithin(r[k], r[i]);
    }
  }

  lemma WalkOfCollected(leq: Order, records: Records, paths: seq<Text>, targets: seq<Option<Text>>)
    requires GroupReorder.TotalOrder(leq) && Collected(paths, targets) && Nodes(ParentOf, paths)
    ensures var r := Walk(ParentOf, leq, records, paths, [], Longest(paths));
            Collected(r, targets) && TreeOrder(r) && SiblingsOrdered(ParentOf, leq, records, r)
  {
    CollectedIsForest(paths, targets);
    var r := Walk(ParentOf, leq, records, paths, [], Longest(paths));
    WalkIs(ParentOf, leq, records, paths, [], Longest(paths));
    forall x | x in paths ensures x in r {
      AboveIsWithin(x, x);
    }
    PreorderIsTreeOrder(r);
    forall i, j | 0 <= i < j < |r| ensures r[i] != r[j] {
      assert !Above(ParentOf, r[i], r[j]);
    }
  }

  /** All paths that groups, hosts and assets name, with all those above them: each once, every subtree in
      one piece behind its root, siblings in the order of `compareGroupSiblings`. */
  method CollectGroupPaths(leq: Order, groups: seq<GroupRecord>, groupNames: seq<Option<Text>>) returns (ordered: seq<Text>)
    requires GroupReorder.TotalOrder(leq)
    ensures Collected(ordered, TargetsOf(groups) + groupNames)
    ensures TreeOrder(ordered)
    ensures SiblingsOrdered(ParentOf, leq, RecordsOf(groups), ordered)
    ensures forall i, j :: 0 <= i < j < |ordered| && Parent(Some(ordered[i])) == Parent(Some(ordered[j])) ==>
              GroupReorder.Precedes(leq, Seen(RecordsOf(groups), ordered[i]), Seen(RecordsOf(groups), ordered[j]))
  {
    var paths: seq<Text> := [];
    ghost var targets: seq<Option<Text>> := [];
    for index := 0 to |groups|
      invariant targets == TargetsOf(groups[..index])
      invariant Collected(paths, targets)
    {
      var target := Some(groups[index].path);
      paths := AppendPathWithAncestors(paths, target);
      NamedSnoc(targets, target);
      targets := targets + [target];
      assert groups[..index + 1] == groups[..index] + [groups[index]];
    }
    assert groups[..|groups|] == groups;
    for index := 0 to |groupNames|
      invariant targets == TargetsOf(groups) + groupNames[..index]
      invariant Collected(paths, targets)
    {
      paths := AppendPathWithAncestors(paths, groupNames[index]);
      NamedSnoc(targets, groupNames[index]);
      targets := targets + [groupNames[index]];
      assert groupNames[..index + 1] == groupNames[..index] + [groupNames[index]];
    }
    assert groupNames[..|groupNames|] == groupNames;
    CollectedIsForest(paths, targets);
    WalkOfCollected(leq, RecordsOf(groups), paths, targets);
    ordered := OrderPaths(ParentOf, leq, RecordsOf(groups), paths);
    SiblingsShown(leq, RecordsOf(groups), ordered);
  }

  function TargetsOf(groups: seq<GroupRecord>): (r: seq<Option<Text>>)
    ensures |r| == |groups|
  {
    seq(|groups|, k requires 0 <= k < |groups| => Some(groups[k].path))
  }
}
