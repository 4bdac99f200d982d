/** What removing a group keeps and what it drops, said of the segments of paths
    (`removeGroupFrom` in `packages/shared-core/src/group-mutations.ts`). */
module GroupRemoval {
  import opened Words
  import opened JsText
  import opened GroupPaths
  import opened GroupCollect
  import opened GroupLists
  import opened GroupMutations
  import opened Selections

  // ---------------------------------------------------------------- deleting a subtree

  /** A path, as its segments, is inside the removed group. */
  predicate Inside(name: Option<Text>, target: Text) {
    Segments(Some(target)) <= Segments(name)
  }

  function GroupInside(target: Text, inside: bool): GroupRecord -> bool {
    (g: GroupRecord) => Inside(Some(g.path), target) == inside
  }

  function HostIsInside(target: Text, inside: bool): HostRecord -> bool {
    (h: HostRecord) => Inside(h.groupName, target) == inside
  }

  function GroupId(): (GroupRecord, Text) -> bool {
    (g: GroupRecord, id: Text) => id == g.id
  }

  function HostId(): (HostRecord, Text) -> bool {
    (h: HostRecord, id: Text) => id == h.id
  }

  lemma InsideIs(g: GroupRecord, target: Text)
    requires IsNormal(g.path) && IsNormal(target)
    ensures InsideOf(target)(g.path) <==> Inside(Some(g.path), target)
  {
    var p :| IsPath(p) && p != [] && g.path == Join(p);
    var f :| IsPath(f) && f != [] && target == Join(f);
    SegmentsOfJoin(p);
    SegmentsOfJoin(f);
    JoinNonEmpty(p);
    JoinNonEmpty(f);
    WithinIsPrefix(p, f);
  }

  lemma {:induction false} PartSelects(groups: seq<GroupRecord>, target: Text, inside: bool)
    requires NormalPaths(groups) && IsNormal(target)
    ensures Selects(groups, GroupInside(target, inside), Part(groups, InsideOf(target), inside), AsItWas())
    ensures Selects(groups, GroupInside(target, inside), Ids(Part(groups, InsideOf(target), inside)), GroupId())
    decreases |groups|
  {
    var same, ids := AsItWas(), GroupId();
    var wanted := GroupInside(target, inside);
    if groups == [] {
      SelectsNothing(wanted, same);
      SelectsNothing(wanted, ids);
    } else {
      var init, g := groups[..|groups| - 1], groups[|groups| - 1];
      assert groups == init + [g];
      PartSelects(init, target, inside);
      PartSnoc(init, g, InsideOf(target), inside);
      InsideIs(g, target);
      var part := Part(init, InsideOf(target), inside);
      if wanted(g) {
        SelectsTake(init, g, wanted, part, g, same);
        SelectsTake(init, g, wanted, Ids(part), g.id, ids);
        IdsSnoc(part, g);
      } else {
        assert part + [] == part;
        SelectsSkip(init, g, wanted, part, same);
        SelectsSkip(init, g, wanted, Ids(part), ids);
      }
    }
  }

  lemma {:induction false} HostPartSelects(hosts: seq<HostRecord>, target: Text, inside: bool)
    requires IsNormal(target)
    ensures Selects(hosts, HostIsInside(target, inside), HostPart(hosts, target, inside), AsItWas())
    ensures Selects(hosts, HostIsInside(target, inside), HostIds(HostPart(hosts, target, inside)), HostId())
    decreases |hosts|
  {
    var same, ids := AsItWas(), HostId();
    var wanted := HostIsInside(target, inside);
    if hosts == [] {
      SelectsNothing(wanted, same);
      SelectsNothing(wanted, ids);
    } else {
      var init, h := hosts[..|hosts| - 1], hosts[|hosts| - 1];
      assert hosts == init + [h];
      HostPartSelects(init, target, inside);
      HostPartSnoc(init, h, target, inside);
      HostInsideIs(h, target);
      var part := HostPart(init, target, inside);
      if wanted(h) {
        SelectsTake(init, h, wanted, part, h, same);
        SelectsTake(init, h, wanted, HostIds(part), h.id, ids);
        HostPartSnoc(part, h, target, true);
      } else {
        assert part + [] == part;
        SelectsSkip(init, h, wanted, part, same);
        SelectsSkip(init, h, wanted, HostIds(part), ids);
      }
    }
  }

  /** Deleting a subtree keeps, in their order and unchanged, exactly the records and hosts whose segments do
      not begin with the group's, and reports exactly the ids of the others, in their order. */
  lemma DeletedExactly(groups: seq<GroupRecord>, hosts: seq<HostRecord>, target: Text, options: Options)
    requires NormalPaths(groups) && IsNormal(target)
    ensures var r := Removed(groups, hosts, target, DeleteSubtree, options);
            && Selects(groups, GroupInside(target, false), r.groups, AsItWas())
            && Selects(hosts, HostIsInside(target, false), r.hosts, AsItWas())
            && Selects(groups, GroupInside(target, true), r.removedGroupIds, GroupId())
            && Selects(hosts, HostIsInside(target, true), r.removedHostIds, HostId())
  {
    PartSelects(groups, target, true);
    PartSelects(groups, target, false);
    HostPartSelects(hosts, target, true);
    HostPartSelects(hosts, target, false);
  }

  // ---------------------------------------------------------------- lifting what was inside

  /** The segments of a path inside the removed group, without the removed segment. */
  function Raised(p: seq<Text>, f: seq<Text>): seq<Text>
    requires f <= p
  {
    Init(f) + p[|f|..]
  }

  /** Some record outside the removed group has these segments. */
  predicate StandsOutside(groups: seq<GroupRecord>, target: Text, q: seq<Text>) {
    exists k :: 0 <= k < |groups| && !Inside(Some(groups[k].path), target) && Segments(Some(groups[k].path)) == q
  }

  /** A record outside the removed group stands where `g` would be lifted to. */
  predicate Taken(groups: seq<GroupRecord>, g: GroupRecord, target: Text)
    requires Inside(Some(g.path), target)
  {
    StandsOutside(groups, target, Raised(Segments(Some(g.path)), Segments(Some(target))))
  }

  /** The records that are lifted: inside the group, not the group itself, and nothing in the way. */
  function IsLifted(groups: seq<GroupRecord>, target: Text): GroupRecord -> bool {
    (g: GroupRecord) => Inside(Some(g.path), target) && Segments(Some(g.path)) != Segments(Some(target)) && !Taken(groups, g, target)
  }

  function IsDropped(groups: seq<GroupRecord>, target: Text): GroupRecord -> bool {
    (g: GroupRecord) => Inside(Some(g.path), target) && (Segments(Some(g.path)) == Segments(Some(target)) || Taken(groups, g, target))
  }

  /** A lifted record: one level up, its name and parent those of the new path, the rest as it was. */
  function LiftedTo(target: Text, timestamp: Text): (GroupRecord, GroupRecord) -> bool {
    (g: GroupRecord, r: GroupRecord) =>
      && Inside(Some(g.path), target)
      && var q := Raised(Segments(Some(g.path)), Segments(Some(target)));
         && q != [] && r.path == Join(q) && r.name == q[|q| - 1] && r.parentPath == AsPath(Init(q))
         && r.id == g.id && r.sortRank == g.sortRank && r.createdAt == g.createdAt && r.updatedAt == timestamp
  }

  lemma RaisedIs(p: seq<Text>, f: seq<Text>)
    requires IsPath(p) && IsPath(f) && f != [] && f <= p
    ensures Raised(p, f) == Moved(p, f, Init(f)) && IsPath(Raised(p, f))
    ensures p != f ==> Raised(p, f) != []
  {
    LiftedIsPath(p, f);
    assert p == f + p[|f|..];
  }

  /** Where the source's strings put a record inside the group that is not the group itself. */
  lemma RaisedPath(x: Text, target: Text, p: seq<Text>, f: seq<Text>)
    requires IsPath(p) && IsPath(f) && f != [] && f <= p && p != f && x == Join(p) && target == Join(f)
    ensures Raised(p, f) != [] && IsPath(Raised(p, f)) && Target(LiftFrom(target), x) == Join(Raised(p, f)) != []
  {
    RaisedIs(p, f);
    SegmentsOfJoin(p);
    SegmentsOfJoin(f);
    StripLifts(Some(x), target);
    JoinNonEmpty(Raised(p, f));
  }

  lemma RelocatedRecord(g: GroupRecord, q: seq<Text>, timestamp: Text)
    requires IsPath(q) && q != []
    ensures var r := Relocated(g, Join(q), timestamp);
            r.path == Join(q) && r.name == q[|q| - 1] && r.parentPath == AsPath(Init(q)) && r.id == g.id
            && r.sortRank == g.sortRank && r.createdAt == g.createdAt && r.updatedAt == timestamp
  {
    LabelIsLast(q);
    SegmentsOfJoin(q);
    ParentIsInit(Some(Join(q)));
  }

  lemma NormalJoin(x: Text)
    requires IsNormal(x)
    ensures IsPath(Segments(Some(x))) && Segments(Some(x)) != [] && x == Join(Segments(Some(x)))
  {
    var p :| IsPath(p) && p != [] && x == Join(p);
    SegmentsOfJoin(p);
  }

  /** For a record inside the group: whether it is the group itself, and whether its new place is taken, as
      the loop tests it on strings. */
  lemma TestsMean(groups: seq<GroupRecord>, g: GroupRecord, target: Text)
    requires NormalPaths(groups) && IsNormal(target) && IsNormal(g.path) && Inside(Some(g.path), target)
    ensures var p, f := Segments(Some(g.path)), Segments(Some(target));
            && (g.path == target <==> p == f)
            && (p != f ==>
                  var path := Target(LiftFrom(target), g.path);
                  && path == Join(Raised(p, f)) != [] && IsPath(Raised(p, f)) && Raised(p, f) != []
                  && (HasPath(Part(groups, InsideOf(target), false), path) <==> Taken(groups, g, target)))
  {
    var p, f := Segments(Some(g.path)), Segments(Some(target));
    NormalJoin(g.path);
    NormalJoin(target);
    if p != f {
      RaisedPath(g.path, target, p, f);
      PathTaken(groups, target, Raised(p, f));
    }
  }

  lemma PathTaken(groups: seq<GroupRecord>, target: Text, q: seq<Text>)
    requires NormalPaths(groups) && IsNormal(target) && IsPath(q)
    ensures HasPath(Part(groups, InsideOf(target), false), Join(q)) <==> StandsOutside(groups, target, q)
  {
    var outside := Part(groups, InsideOf(target), false);
    SegmentsOfJoin(q);
    forall k | 0 <= k < |groups|
      ensures groups[k] in outside <==> !Inside(Some(groups[k].path), target)
      ensures groups[k].path == Join(q) <==> Segments(Some(groups[k].path)) == q
    {
      InsideIs(groups[k], target);
      NormalJoin(groups[k].path);
    }
    OfSomePath(groups, outside, Join(q));
  }

  lemma OfSomePath(groups: seq<GroupRecord>, part: seq<GroupRecord>, path: Text)
    requires forall g :: g in part ==> g in groups
    ensures HasPath(part, path) <==> exists k :: 0 <= k < |groups| && groups[k] in part && groups[k].path == path
  {
    if HasPath(part, path) {
      var j :| 0 <= j < |part| && part[j].path == path;
      assert part[j] in part;
      var k :| 0 <= k < |groups| && groups[k] == part[j];
      assert groups[k] in part && groups[k].path == path;
    }
  }

  /** Records that were apart are lifted to places apart. */
  lemma RaisedApart(x: Text, y: Text, target: Text)
    requires IsNormal(x) && IsNormal(y) && x != y && Inside(Some(x), target) && Inside(Some(y), target)
    ensures var f := Segments(Some(target)); Raised(Segments(Some(x)), f) != Raised(Segments(Some(y)), f)
  {
    var p, q, f := Segments(Some(x)), Segments(Some(y)), Segments(Some(target));
    NormalJoin(x);
    NormalJoin(y);
    if Raised(p, f) == Raised(q, f) {
      SameRaised(p, q, f);
    }
  }

  lemma SameRaised(p: seq<Text>, q: seq<Text>, f: seq<Text>)
    requires f <= p && f <= q && Raised(p, f) == Raised(q, f)
    ensures p == q
  {
    SameTail(Init(f), p[|f|..], q[|f|..]);
    assert p == f + p[|f|..] && q == f + q[|f|..];
  }

  lemma SameTail(a: seq<Text>, b: seq<Text>, c: seq<Text>)
    requires a + b == a + c
    ensures b == c
  {
    assert b == (a + b)[|a|..] && c == (a + c)[|a|..];
  }

  lemma NotYetLifted(before: seq<GroupRecord>, g: GroupRecord, groups: seq<GroupRecord>, target: Text, timestamp: Text, lifted: seq<GroupRecord>)
    requires NormalPaths(before + [g]) && DistinctPaths(before + [g]) && Inside(Some(g.path), target)
    requires Selects(before, IsLifted(groups, target), lifted, LiftedTo(target, timestamp))
    requires IsPath(Raised(Segments(Some(g.path)), Segments(Some(target))))
    ensures !HasPath(lifted, Join(Raised(Segments(Some(g.path)), Segments(Some(target)))))
  {
    var f := Segments(Some(target));
    var q := Raised(Segments(Some(g.path)), f);
    var places :| Picks(places, before, IsLifted(groups, target), lifted, LiftedTo(target, timestamp));
    forall k | 0 <= k < |lifted| ensures lifted[k].path != Join(q) {
      var other := before[places[k]];
      assert (before + [g])[places[k]] == other && (before + [g])[|before|] == g;
      RaisedApart(other.path, g.path, target);
      PathOfRaised(other.path, target);
      if lifted[k].path == Join(q) {
        JoinInjective(Raised(Segments(Some(other.path)), f), q);
      }
    }
  }

  lemma PathOfRaised(x: Text, target: Text)
    requires Inside(Some(x), target)
    ensures IsPath(Raised(Segments(Some(x)), Segments(Some(target))))
  {
    SegmentsArePath(Some(x));
    SegmentsArePath(Some(target));
    LiftedIsPath(Segments(Some(x)), Segments(Some(target)));
    var p, f := Segments(Some(x)), Segments(Some(target));
    assert f != [] ==> Raised(p, f) == Moved(p, f, Init(f));
  }

  lemma LiftSnoc(list: seq<GroupRecord>, affected: seq<GroupRecord>, g: GroupRecord, root: Text, move: Move, place: Place)
    ensures LiftAll(list, affected + [g], root, move, place) == LiftOne(LiftAll(list, affected, root, move, place), g, root, move, place)
  {
    assert (affected + [g])[..|affected|] == affected;
  }

  lemma LiftsUp(list: seq<GroupRecord>, lifted: seq<GroupRecord>, removed: seq<Text>, g: GroupRecord, root: Text, move: Move, place: Place, up: GroupRecord)
    requires g.path != root && Target(move, g.path) != [] && !HasPath(list + lifted, Target(move, g.path))
    requires place(g, Target(move, g.path)) == up && up.path == Target(move, g.path)
    ensures LiftOne(Lifted(list + lifted, removed), g, root, move, place) == Lifted(list + (lifted + [up]), removed)
  {
    assert list + (lifted + [up]) == (list + lifted) + [up];
  }

  /** The loop after the records `before`: what has been lifted, and the ids dropped. */
  ghost predicate LoopAt(groups: seq<GroupRecord>, before: seq<GroupRecord>, target: Text, timestamp: Text, lifted: seq<GroupRecord>, removed: seq<Text>) {
    var list := Part(groups, InsideOf(target), false);
    && LiftAll(list, Part(before, InsideOf(target), true), target, LiftFrom(target), PlaceAt(timestamp)) == Lifted(list + lifted, removed)
    && Selects(before, IsLifted(groups, target), lifted, LiftedTo(target, timestamp))
    && Selects(before, IsDropped(groups, target), removed, GroupId())
  }

  lemma LoopOutside(groups: seq<GroupRecord>, init: seq<GroupRecord>, g: GroupRecord, target: Text, timestamp: Text, lifted: seq<GroupRecord>, removed: seq<Text>)
    requires LoopAt(groups, init, target, timestamp, lifted, removed)
    requires !InsideOf(target)(g.path) && !Inside(Some(g.path), target)
    ensures LoopAt(groups, init + [g], target, timestamp, lifted, removed)
  {
    PartSnoc(init, g, InsideOf(target), true);
    assert Part(init, InsideOf(target), true) + [] == Part(init, InsideOf(target), true);
    SelectsSkip(init, g, IsLifted(groups, target), lifted, LiftedTo(target, timestamp));
    SelectsSkip(init, g, IsDropped(groups, target), removed, GroupId());
  }

  lemma LoopDrops(groups: seq<GroupRecord>, init: seq<GroupRecord>, g: GroupRecord, target: Text, timestamp: Text, lifted: seq<GroupRecord>, removed: seq<Text>)
    requires LoopAt(groups, init, target, timestamp, lifted, removed)
    requires InsideOf(target)(g.path) && IsDropped(groups, target)(g)
    requires g.path == target || HasPath(Part(groups, InsideOf(target), false), Target(LiftFrom(target), g.path))
    ensures LoopAt(groups, init + [g], target, timestamp, lifted, removed + [g.id])
  {
    var list := Part(groups, InsideOf(target), false);
    PartSnoc(init, g, InsideOf(target), true);
    LiftSnoc(list, Part(init, InsideOf(target), true), g, target, LiftFrom(target), PlaceAt(timestamp));
    HasPathConcat(list, lifted, Target(LiftFrom(target), g.path));
    SelectsSkip(init, g, IsLifted(groups, target), lifted, LiftedTo(target, timestamp));
    SelectsTake(init, g, IsDropped(groups, target), removed, g.id, GroupId());
  }

  lemma LoopLifts(groups: seq<GroupRecord>, init: seq<GroupRecord>, g: GroupRecord, target: Text, timestamp: Text, lifted: seq<GroupRecord>, removed: seq<Text>,
                  path: Text, up: GroupRecord)
    requires LoopAt(groups, init, target, timestamp, lifted, removed)
    requires InsideOf(target)(g.path) && IsLifted(groups, target)(g) && LiftedTo(target, timestamp)(g, up)
    requires g.path != target && Target(LiftFrom(target), g.path) == path != [] && up == Relocated(g, path, timestamp)
    requires !HasPath(Part(groups, InsideOf(target), false), path) && !HasPath(lifted, path)
    ensures LoopAt(groups, init + [g], target, timestamp, lifted + [up], removed)
  {
    var list := Part(groups, InsideOf(target), false);
    PartSnoc(init, g, InsideOf(target), true);
    LiftSnoc(list, Part(init, InsideOf(target), true), g, target, LiftFrom(target), PlaceAt(timestamp));
    HasPathConcat(list, lifted, path);
    LiftsUp(list, lifted, removed, g, target, LiftFrom(target), PlaceAt(timestamp), up);
    SelectsTake(init, g, IsLifted(groups, target), lifted, up, LiftedTo(target, timestamp));
    SelectsSkip(init, g, IsDropped(groups, target), removed, GroupId());
  }

  lemma {:induction false} LiftSelects(groups: seq<GroupRecord>, before: seq<GroupRecord>, target: Text, timestamp: Text)
    returns (lifted: seq<GroupRecord>, removed: seq<Text>)
    requires NormalPaths(groups) && NormalPaths(before) && DistinctPaths(before) && IsNormal(target)
    ensures LoopAt(groups, before, target, timestamp, lifted, removed)
    decreases |before|
  {
    if before == [] {
      var list := Part(groups, InsideOf(target), false);
      SelectsNothing(IsLifted(groups, target), LiftedTo(target, timestamp));
      SelectsNothing(IsDropped(groups, target), GroupId());
      lifted, removed := [], [];
      assert list + [] == list;
    } else {
      var init, g := before[..|before| - 1], before[|before| - 1];
      assert before == init + [g];
      PathsSnoc(init, g);
      lifted, removed := LiftSelects(groups, init, target, timestamp);
      lifted, removed := LoopNext(groups, init, g, target, timestamp, lifted, removed);
    }
  }

  lemma LoopNext(groups: seq<GroupRecord>, init: seq<GroupRecord>, g: GroupRecord, target: Text, timestamp: Text, before: seq<GroupRecord>, gone: seq<Text>)
    returns (lifted: seq<GroupRecord>, removed: seq<Text>)
    requires LoopAt(groups, init, target, timestamp, before, gone)
    requires NormalPaths(groups) && NormalPaths(init + [g]) && DistinctPaths(init + [g]) && IsNormal(target) && IsNormal(g.path)
    ensures LoopAt(groups, init + [g], target, timestamp, lifted, removed)
  {
    lifted, removed := before, gone;
    InsideIs(g, target);
    if !Inside(Some(g.path), target) {
      LoopOutside(groups, init, g, target, timestamp, before, gone);
    } else {
      TestsMean(groups, g, target);
      if IsDropped(groups, target)(g) {
        LoopDrops(groups, init, g, target, timestamp, before, gone);
        removed := gone + [g.id];
      } else {
        var q := Raised(Segments(Some(g.path)), Segments(Some(target)));
        NotYetLifted(init, g, groups, target, timestamp, before);
        RelocatedRecord(g, q, timestamp);
        LoopLifts(groups, init, g, target, timestamp, before, gone, Join(q), Relocated(g, Join(q), timestamp));
        lifted := before + [Relocated(g, Join(q), timestamp)];
      }
    }
  }

  /** Lifting what was inside keeps, in their order, the records outside as they were, and behind them, in
      their order, those inside that are not the group itself and whose new place no record outside has, each
      one level up. It reports exactly the ids of the others inside, and removes no host; a host outside is
      unchanged, and one inside stays in its place with the removed segment taken out of its group. */
  lemma LiftedExactly(groups: seq<GroupRecord>, hosts: seq<HostRecord>, target: Text, options: Options)
    returns (outside: seq<GroupRecord>, lifted: seq<GroupRecord>)
    requires NormalPaths(groups) && DistinctPaths(groups) && IsNormal(target) && Respectful(options)
    ensures var r := Removed(groups, hosts, target, ReparentDescendants, options);
            && r.groups == outside + lifted
            && Selects(groups, GroupInside(target, false), outside, AsItWas())
            && Selects(groups, IsLifted(groups, target), lifted, LiftedTo(target, options.timestamp))
            && Selects(groups, IsDropped(groups, target), r.removedGroupIds, GroupId())
            && r.removedHostIds == [] && |r.hosts| == |hosts|
            && forall k :: 0 <= k < |hosts| ==>
                 if Inside(hosts[k].groupName, target) then
                   r.hosts[k].id == hosts[k].id
                   && Segments(r.hosts[k].groupName) == Raised(Segments(hosts[k].groupName), Segments(Some(target)))
                 else r.hosts[k] == hosts[k]
  {
    outside := Part(groups, InsideOf(target), false);
    PartSelects(groups, target, false);
    PartPaths(groups, InsideOf(target), false);
    FilledDistinct(outside);
    ghost var removed;
    lifted, removed := LiftSelects(groups, groups, target, options.timestamp);
    forall k | 0 <= k < |hosts|
      ensures if Inside(hosts[k].groupName, target) then
                LiftedHost(hosts[k], target, options).id == hosts[k].id
                && Segments(LiftedHost(hosts[k], target, options).groupName) == Raised(Segments(hosts[k].groupName), Segments(Some(target)))
              else LiftedHost(hosts[k], target, options) == hosts[k]
    {
      HostInsideIs(hosts[k], target);
      HostLifts(hosts[k], target, options);
    }
  }

  /** A target that the operation accepts is normal, so the two theorems above apply to it. */
  lemma AcceptedIsNormal(targetPath: Text)
    ensures Normalize(Some(targetPath)).Some? ==>
              IsNormal(Normalize(Some(targetPath)).value) && Segments(Normalize(Some(targetPath))) == Segments(Some(targetPath))
  {
    NormalizeIsCanonical(Some(targetPath));
    SegmentsArePath(Some(targetPath));
    JoinNonEmpty(Segments(Some(targetPath)));
  }
}
