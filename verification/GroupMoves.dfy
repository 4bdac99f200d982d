/** Moving a group there and back, and the complete operations `moveGroupIn` and `renameGroupIn`
    (`packages/shared-core/src/group-mutations.ts`). */
module GroupMoves {
  import opened Words
  import opened JsText
  import opened GroupPaths
  import opened GroupTree
  import opened GroupCollect
  import opened GroupLists
  import opened GroupMutations
  import GroupReorder

  // ---------------------------------------------------------------- a place that is not vacant

  lemma SegmentsLand(y: Text, t: seq<Text>, rest: seq<Text>, next: Text)
    requires IsPath(t + rest) && IsPath(t) && t != [] && y == Join(t + rest) && next == Join(t)
    ensures IsNormal(y) && InsideOf(next)(y)
  {
    JoinNonEmpty(t + rest);
    JoinNonEmpty(t);
    WithinIsPrefix(t + rest, t);
  }

  /** A path inside the target lands, normalized, inside the new place. */
  lemma LandsInside(x: Text, target: Text, next: Text)
    requires IsNormal(x) && IsNormal(target) && IsNormal(next) && InsideOf(target)(x)
    ensures IsNormal(Target(MoveTo(target, next), x)) && InsideOf(next)(Target(MoveTo(target, next), x))
  {
    var p, f := NormalInside(x, target);
    var t :| IsPath(t) && t != [] && next == Join(t);
    MovedSegments(x, Join(t + p[|f|..]), target, next, p, f, t);
    SegmentsLand(Join(t + p[|f|..]), t, p[|f|..], next);
  }

  lemma MovedAreNormal(groups: seq<GroupRecord>, hosts: seq<HostRecord>, target: Text, next: Text, options: Options)
    requires DistinctPaths(groups) && NormalPaths(groups) && IsNormal(target) && IsNormal(next)
    requires Mutated(groups, hosts, target, next, options).Ok?
    ensures NormalPaths(Mutated(groups, hosts, target, next, options).value.groups)
  {
    MoveYields(groups, hosts, target, next, options);
    var others, affected := Part(groups, InsideOf(target), false), Part(groups, InsideOf(target), true);
    AllOf(groups, InsideOf(target), false);
    AllOf(groups, InsideOf(target), true);
    var moved := MovedAll(affected, MoveTo(target, next), PlaceAt(options.timestamp));
    forall k | 0 <= k < |moved| ensures IsNormal(moved[k].path) {
      LandsInside(affected[k].path, target, next);
    }
  }

  /** After a move no group is left at a path inside the target, unless that path is inside the new place. */
  lemma NothingLeft(groups: seq<GroupRecord>, hosts: seq<HostRecord>, target: Text, next: Text, options: Options, x: Text)
    requires DistinctPaths(groups) && NormalPaths(groups) && IsNormal(target) && IsNormal(next)
    requires Mutated(groups, hosts, target, next, options).Ok?
    requires InsideOf(target)(x) && !InsideOf(next)(x)
    ensures !HasPath(Mutated(groups, hosts, target, next, options).value.groups, x)
  {
    MoveYields(groups, hosts, target, next, options);
    var others, affected := Part(groups, InsideOf(target), false), Part(groups, InsideOf(target), true);
    AllOf(groups, InsideOf(target), false);
    AllOf(groups, InsideOf(target), true);
    var moved := MovedAll(affected, MoveTo(target, next), PlaceAt(options.timestamp));
    forall k | 0 <= k < |moved| ensures moved[k].path != x {
      LandsInside(affected[k].path, target, next);
    }
    HasPathConcat(others, moved, x);
  }

  lemma RestoredPath(r: Result<Mutation, Error>, all: seq<GroupRecord>, hosts: seq<HostRecord>, target: Text, g: GroupRecord)
    requires Restored(r, all, hosts, target) && g in all
    ensures HasPath(r.value.groups, g.path)
  {
    var before := Part(all, InsideOf(target), false) + Part(all, InsideOf(target), true);
    assert g in before;
    var k :| 0 <= k < |before| && before[k] == g;
    assert r.value.groups[k].path == g.path;
  }

  /** A host that was inside the new place but not inside the target is taken along on the way back. */
  lemma HostTakenAlong(h: HostRecord, target: Text, next: Text, options: Options)
    requires Respectful(options) && IsNormal(target) && IsNormal(next)
    requires HostInside(h, next) && !HostInside(h, target)
    ensures Segments(MovedHost(MovedHost(h, target, next, options), next, target, options).groupName) != Segments(h.groupName)
  {
    HostInsideIs(h, target);
    HostInsideIs(h, next);
    HostMoves(h, next, target, options);
    var f := Segments(Some(target));
    var q := Moved(Segments(h.groupName), Segments(Some(next)), f);
    assert f <= q;
  }

  /** If moving back restored everything, nothing outside the target was inside the new place: a group there
      would have been moved into the target, and so would the group of a host there. */
  lemma RestoredVacant(leq: Order, idOf: (Text, Text) -> Text, groups: seq<GroupRecord>, hosts: seq<HostRecord>, target: Text, next: Text, options: Options,
                       later: seq<Text>)
    requires Respectful(options) && IsNormal(target) && IsNormal(next) && DistinctPaths(groups) && NormalPaths(groups)
    requires Mutated(groups, hosts, target, next, options).Ok?
    requires var m := Mutated(groups, hosts, target, next, options).value;
             && Collected(later, TargetsOf(m.groups) + HostTargets(m.hosts))
             && Restored(Mutated(Materialized(leq, idOf, m.groups, m.hosts, next, later), m.hosts, next, target, options), groups, hosts, target)
    ensures Vacant(groups, hosts, target, next)
  {
    var m := Mutated(groups, hosts, target, next, options).value;
    var again := Materialized(leq, idOf, m.groups, m.hosts, next, later);
    var r := Mutated(again, m.hosts, next, target, options);
    MoveKeepsPathsDistinct(groups, hosts, target, next, options);
    MovedAreNormal(groups, hosts, target, next, options);
    AdditionsAreNormal(leq, idOf, m.groups, m.hosts, next, later);
    MutatedHosts(groups, hosts, target, next, options);
    MutatedHosts(again, m.hosts, next, target, options);
    forall g | g in groups && InsideOf(next)(g.path) ensures InsideOf(target)(g.path) {
      RestoredPath(r, groups, hosts, target, g);
      if !InsideOf(target)(g.path) {
        NothingLeft(again, m.hosts, next, target, options, g.path);
      }
    }
    forall h | h in hosts && HostInside(h, next) ensures HostInside(h, target) {
      var k :| 0 <= k < |hosts| && hosts[k] == h;
      assert Segments(r.value.hosts[k].groupName) == Segments(hosts[k].groupName);
      if !HostInside(h, target) {
        HostTakenAlong(h, target, next, options);
      }
    }
  }

  /** Moving a subtree and moving it back, by `mutateGroupPathIn` both times, succeeds and restores every group
      path and every host's group if and only if nothing outside the subtree was inside the new place. */
  lemma MoveThereAndBack(leq: Order, idOf: (Text, Text) -> Text, groups: seq<GroupRecord>, hosts: seq<HostRecord>, target: Text, next: Text, options: Options,
                         collected: seq<Text>, later: seq<Text>)
    requires Respectful(options) && IsNormal(target) && IsNormal(next) && DistinctPaths(groups) && NormalPaths(groups)
    requires Collected(collected, TargetsOf(groups) + HostTargets(hosts))
    requires Mutated(Materialized(leq, idOf, groups, hosts, target, collected), hosts, target, next, options).Ok?
    requires var m := Mutated(Materialized(leq, idOf, groups, hosts, target, collected), hosts, target, next, options).value;
             Collected(later, TargetsOf(m.groups) + HostTargets(m.hosts))
    ensures var all := Materialized(leq, idOf, groups, hosts, target, collected);
            var m := Mutated(all, hosts, target, next, options).value;
            var r := Mutated(Materialized(leq, idOf, m.groups, m.hosts, next, later), m.hosts, next, target, options);
            Restored(r, all, hosts, target) <==> Vacant(all, hosts, target, next)
  {
    var all := Materialized(leq, idOf, groups, hosts, target, collected);
    var m := Mutated(all, hosts, target, next, options).value;
    var r := Mutated(Materialized(leq, idOf, m.groups, m.hosts, next, later), m.hosts, next, target, options);
    AdditionsAreNormal(leq, idOf, groups, hosts, target, collected);
    if Vacant(all, hosts, target, next) {
      VacantRestores(leq, idOf, groups, hosts, target, next, options, collected, later);
    }
    if Restored(r, all, hosts, target) {
      RestoredVacant(leq, idOf, all, hosts, target, next, options, later);
    }
  }

  const A: Text := [0x61]
  const B: Text := [0x62]
  const X: Text := [0x78]

  lemma Letters()
    ensures IsPath([A]) && IsPath([B]) && IsPath([B, X]) && IsPath([A, X])
    ensures Join([A]) == A && Join([B]) == B && Join([B, X]) == [0x62, 0x2F, 0x78] && Join([A, X]) == [0x61, 0x2F, 0x78]
    ensures IsNormal(A) && IsNormal(B) && IsNormal(Join([B, X])) && IsNormal(Join([A, X]))
  {
    assert Join([B, X]) == B + [SLASH] + Join([X]);
    assert Join([A, X]) == A + [SLASH] + Join([X]);
  }

  lemma PartsOfTwo(g: GroupRecord, h: GroupRecord, test: Text -> bool)
    ensures test(g.path) && !test(h.path) ==> Part([g, h], test, true) == [g] && Part([g, h], test, false) == [h]
    ensures test(g.path) && test(h.path) ==> Part([g, h], test, true) == [g, h] && Part([g, h], test, false) == []
  {
    assert [] + [g] == [g] && [g] + [h] == [g, h];
    PartSnoc([], g, test, true);
    PartSnoc([], g, test, false);
    PartSnoc([g], h, test, true);
    PartSnoc([g], h, test, false);
  }

  lemma MoveYieldsThese(groups: seq<GroupRecord>, target: Text, next: Text, options: Options, others: seq<GroupRecord>, affected: seq<GroupRecord>,
                        moved: seq<GroupRecord>, all: seq<GroupRecord>)
    requires DistinctPaths(groups) && affected != [] && AllLand(affected, MoveTo(target, next))
    requires Part(groups, InsideOf(target), false) == others && Part(groups, InsideOf(target), true) == affected
    requires moved == MovedAll(affected, MoveTo(target, next), PlaceAt(options.timestamp))
    requires all == others + moved && DistinctPaths(all) && !HasPath(others, next)
    ensures Mutated(groups, [], target, next, options) == Ok(Mutation(all, [], next))
  {
    MoveYields(groups, [], target, next, options);
    assert MovedHosts([], target, next, options) == [];
  }

  lemma TwoMove(g: GroupRecord, h: GroupRecord, move: Move, place: Place, y: Text, z: Text, a: GroupRecord, b: GroupRecord)
    requires Target(move, g.path) == y != [] && Target(move, h.path) == z != [] && place(g, y) == a && place(h, z) == b
    ensures MovedAll([g, h], move, place) == [a, b] && AllLand([g, h], move)
    ensures MovedAll([g], move, place) == [a] && AllLand([g], move)
  {
  }

  lemma DistinctPair(a: GroupRecord, b: GroupRecord)
    requires a.path != b.path
    ensures DistinctPaths([a, b])
  {
  }

  lemma MovesFirst(g: GroupRecord, h: GroupRecord, target: Text, next: Text, options: Options)
    requires InsideOf(target)(g.path) && !InsideOf(target)(h.path) && h.path != g.path
    requires Target(MoveTo(target, next), g.path) == next && next != [] && h.path != next
    ensures Mutated([g, h], [], target, next, options) == Ok(Mutation([h, Relocated(g, next, options.timestamp)], [], next))
  {
    var a := Relocated(g, next, options.timestamp);
    DistinctPair(g, h);
    DistinctPair(h, a);
    PartsOfTwo(g, h, InsideOf(target));
    TwoMove(g, g, MoveTo(target, next), PlaceAt(options.timestamp), next, next, a, a);
    assert [h] + [a] == [h, a];
    MoveYieldsThese([g, h], target, next, options, [h], [g], [a], [h, a]);
  }

  lemma MovesBoth(g: GroupRecord, h: GroupRecord, target: Text, next: Text, options: Options, y: Text, z: Text)
    requires InsideOf(target)(g.path) && InsideOf(target)(h.path) && h.path != g.path
    requires Target(MoveTo(target, next), g.path) == y && Target(MoveTo(target, next), h.path) == z && y != z && y != [] && z != []
    ensures Mutated([g, h], [], target, next, options)
         == Ok(Mutation([Relocated(g, y, options.timestamp), Relocated(h, z, options.timestamp)], [], next))
  {
    var a, b := Relocated(g, y, options.timestamp), Relocated(h, z, options.timestamp);
    DistinctPair(g, h);
    DistinctPair(a, b);
    PartsOfTwo(g, h, InsideOf(target));
    TwoMove(g, h, MoveTo(target, next), PlaceAt(options.timestamp), y, z, a, b);
    assert [] + [a, b] == [a, b];
    MoveYieldsThese([g, h], target, next, options, [], [g, h], [a, b], [a, b]);
  }

  lemma LettersInside()
    ensures InsideOf(A)(A) && !InsideOf(A)(Join([B, X])) && InsideOf(B)(Join([B, X])) && InsideOf(B)(B)
    ensures Target(MoveTo(A, B), A) == B && Target(MoveTo(B, A), B) == A && Target(MoveTo(B, A), Join([B, X])) == Join([A, X])
  {
    Letters();
    WithinIsPrefix([B, X], [A]);
    MovedSegments(A, B, A, B, [A], [A], [B]);
    MovedSegments(B, A, B, A, [B], [B], [A]);
    assert [A] + [B, X][1..] == [A, X];
    MovedSegments(Join([B, X]), Join([A, X]), B, A, [B, X], [B], [A]);
  }

  /** A move that does not restore: beside the group `a` there is a group `b/x`; `a` moves to `b` and back, and
      `b/x` comes along and ends at `a/x`. */
  lemma NeighbourTakenAlong(g: GroupRecord, h: GroupRecord, options: Options)
    requires g.path == A && h.path == Join([B, X])
    ensures var there := Mutated([g, h], [], A, B, options);
            && there.Ok?
            && var back := Mutated(there.value.groups, [], B, A, options);
               && back.Ok? && |back.value.groups| == 2
               && back.value.groups[0].id == h.id && back.value.groups[0].path == Join([A, X])
               && back.value.groups[1].id == g.id && back.value.groups[1].path == A
  {
    Letters();
    LettersInside();
    MovesFirst(g, h, A, B, options);
    MovesBoth(h, Relocated(g, B, options.timestamp), B, A, options, Join([A, X]), A);
  }

  // ---------------------------------------------------------------- the complete operations

  method MoveGroupIn(leq: Order, idOf: (Text, Text) -> Text, groups: seq<GroupRecord>, hosts: seq<HostRecord>,
                     targetPath: Text, targetParentPath: Option<Text>, options: Options)
    returns (result: Result<Mutation, Error>)
    requires GroupReorder.TotalOrder(leq)
    ensures match PlanMove(targetPath, targetParentPath)
            case Err(error) => result == Err(error)
            case Ok((target, next)) =>
              exists collected :: Collected(collected, TargetsOf(groups) + HostTargets(hosts))
                                  && result == Mutated(Materialized(leq, idOf, groups, hosts, target, collected), hosts, target, next, options)
  {
    var target := Normalize(Some(targetPath));
    if target.None? {
      return Err(PathInvalid);
    }
    var parent := Normalize(targetParentPath);
    if parent.Some? && IsWithin(parent, target) {
      return Err(IntoItself);
    }
    var next := Normalize(Some(Under(parent, Label(target.value))));
    if next.None? {
      return Err(PathInvalid);
    }
    if next == target {
      return Err(Unchanged);
    }
    result := MutateGroupPathIn(leq, idOf, groups, hosts, target.value, next.value, options);
  }

  method RenameGroupIn(leq: Order, idOf: (Text, Text) -> Text, groups: seq<GroupRecord>, hosts: seq<HostRecord>,
                       targetPath: Text, name: Text, options: Options)
    returns (result: Result<Mutation, Error>)
    requires GroupReorder.TotalOrder(leq)
    ensures match PlanRename(targetPath, name)
            case Err(error) => result == Err(error)
            case Ok((target, next)) =>
              exists collected :: Collected(collected, TargetsOf(groups) + HostTargets(hosts))
                                  && result == Mutated(Materialized(leq, idOf, groups, hosts, target, collected), hosts, target, next, options)
  {
    var target := Normalize(Some(targetPath));
    if target.None? {
      return Err(PathInvalid);
    }
    var cleaned := Trim(name);
    if cleaned == [] {
      return Err(NameRequired);
    }
    var next := Normalize(Some(Under(Parent(target), cleaned)));
    if next.None? {
      return Err(PathInvalid);
    }
    if next == target {
      return Err(Unchanged);
    }
    result := MutateGroupPathIn(leq, idOf, groups, hosts, target.value, next.value, options);
  }

  /** The group stands in the list with its id, where `from` has been replaced by `to` in its path. */
  ghost predicate Follows(groups: seq<GroupRecord>, g: GroupRecord, from: seq<Text>, to: seq<Text>) {
    exists k :: 0 <= k < |groups| && groups[k].id == g.id && Segments(Some(groups[k].path)) == Moved(Segments(Some(g.path)), from, to)
  }

  lemma PathFollows(x: Text, target: Text, next: Text, f: seq<Text>, t: seq<Text>)
    requires IsNormal(x) && IsPath(f) && IsPath(t) && f != [] && t != [] && target == Join(f) && next == Join(t)
    ensures Segments(Some(if InsideOf(target)(x) then Target(MoveTo(target, next), x) else x)) == Moved(Segments(Some(x)), f, t)
  {
    var p :| IsPath(p) && p != [] && x == Join(p);
    JoinNonEmpty(p);
    JoinNonEmpty(f);
    WithinIsPrefix(p, f);
    SegmentsOfJoin(p);
    if f <= p {
      MovedSegments(x, Join(t + p[|f|..]), target, next, p, f, t);
      SegmentsOfJoin(t + p[|f|..]);
    }
  }

  /** After a move or a rename from `f` to `t` the group of every record and of every host has `t` where it
      had `f`, no record is lost, and no two share a path. */
  lemma AllFollow(groups: seq<GroupRecord>, hosts: seq<HostRecord>, f: seq<Text>, t: seq<Text>, options: Options)
    requires Respectful(options) && DistinctPaths(groups) && NormalPaths(groups)
    requires IsPath(f) && IsPath(t) && f != [] && t != []
    requires Mutated(groups, hosts, Join(f), Join(t), options).Ok?
    ensures var m := Mutated(groups, hosts, Join(f), Join(t), options).value;
            && DistinctPaths(m.groups) && |m.groups| == |groups| && |m.hosts| == |hosts|
            && (forall g :: g in groups ==> Follows(m.groups, g, f, t))
            && forall k :: 0 <= k < |hosts| ==>
                 m.hosts[k].id == hosts[k].id && Segments(m.hosts[k].groupName) == Moved(Segments(hosts[k].groupName), f, t)
  {
    var target, next := Join(f), Join(t);
    assert IsNormal(target) && IsNormal(next);
    MoveKeepsPathsDistinct(groups, hosts, target, next, options);
    MoveYields(groups, hosts, target, next, options);
    HostsMove(hosts, target, next, options);
    SegmentsOfJoin(f);
    SegmentsOfJoin(t);
    PartsCount(groups, InsideOf(target));
    var m := Mutated(groups, hosts, target, next, options).value;
    forall g | g in groups ensures Follows(m.groups, g, f, t) {
      var n := GroupFollows(groups, m.groups, g, InsideOf(target), MoveTo(target, next), PlaceAt(options.timestamp));
      PathFollows(g.path, target, next, f, t);
    }
  }

  lemma {:induction false} PartsCount(groups: seq<GroupRecord>, test: Text -> bool)
    ensures |Part(groups, test, false)| + |Part(groups, test, true)| == |groups|
    decreases |groups|
  {
    if groups != [] {
      PartsCount(groups[..|groups| - 1], test);
    }
  }

  lemma GroupFollows(groups: seq<GroupRecord>, after: seq<GroupRecord>, g: GroupRecord, test: Text -> bool, move: Move, place: Place)
    returns (n: nat)
    requires Places(place) && g in groups
    requires after == Part(groups, test, false) + MovedAll(Part(groups, test, true), move, place)
    ensures n < |after| && after[n].id == g.id && after[n].path == if test(g.path) then Target(move, g.path) else g.path
  {
    var others, affected := Part(groups, test, false), Part(groups, test, true);
    if test(g.path) {
      assert g in affected;
      var k :| 0 <= k < |affected| && affected[k] == g;
      Second(others, MovedAll(affected, move, place), k);
      n := |others| + k;
    } else {
      assert g in others;
      n :| 0 <= n < |others| && others[n] == g;
    }
  }

  lemma Second(a: seq<GroupRecord>, b: seq<GroupRecord>, k: nat)
    requires k < |b|
    ensures (a + b)[|a| + k] == b[k]
  {
  }

  lemma EndsAlike(f: seq<Text>, p: seq<Text>, t: seq<Text>)
    requires IsPath(f) && IsPath(p) && f != [] && t == p + [f[|f| - 1]] && !(f <= t)
    ensures IsPath(t) && t != [] && f != t && f[|f| - 1] == t[|t| - 1]
  {
  }

  lemma MoveParts(targetPath: Text, parentPath: Option<Text>, target: Text, next: Text) returns (f: seq<Text>, t: seq<Text>)
    requires PlanMove(targetPath, parentPath) == Ok((target, next))
    ensures IsPath(f) && IsPath(t) && f != [] && t != [] && f != t && f[|f| - 1] == t[|t| - 1]
    ensures target == Join(f) && next == Join(t)
  {
    PlannedMove(targetPath, parentPath);
    SegmentsArePath(Some(targetPath));
    SegmentsArePath(parentPath);
    f := Segments(Some(targetPath));
    t := Segments(parentPath) + [f[|f| - 1]];
    EndsAlike(f, Segments(parentPath), t);
  }

  /** Moving a group from under its parent: the way back is planned as the opposite move, unless the new place
      is above the old one, where no group can be moved to. */
  lemma PlannedBack(targetPath: Text, parentPath: Option<Text>, target: Text, next: Text)
    requires PlanMove(targetPath, parentPath) == Ok((target, next))
    ensures PlanMove(next, Parent(Some(target)))
         == if Segments(Some(next)) <= Init(Segments(Some(target))) then Err(IntoItself) else Ok((next, target))
  {
    var f, t := MoveParts(targetPath, parentPath, target, next);
    BackFrom(f, t, target, next);
  }

  lemma InitLast(p: seq<Text>)
    requires p != []
    ensures Init(p) + [p[|p| - 1]] == p
  {
  }

  lemma PlanMoveIs(targetPath: Text, parentPath: Option<Text>, target: Text, parent: Option<Text>, last: Text, next: Text)
    requires Normalize(Some(targetPath)) == Some(target) && Normalize(parentPath) == parent && Label(target) == last
    requires Normalize(Some(Under(parent, last))) == Some(next) && next != target
    ensures PlanMove(targetPath, parentPath) == if parent.Some? && IsWithin(parent, Some(target)) then Err(IntoItself) else Ok((target, next))
  {
  }

  lemma BackFrom(f: seq<Text>, t: seq<Text>, target: Text, next: Text)
    requires IsPath(f) && IsPath(t) && f != [] && t != [] && f != t && f[|f| - 1] == t[|t| - 1]
    requires target == Join(f) && next == Join(t)
    ensures Segments(Some(target)) == f && Segments(Some(next)) == t
    ensures PlanMove(next, Parent(Some(target))) == if t <= Init(f) then Err(IntoItself) else Ok((next, target))
  {
    var last := f[|f| - 1];
    var parent := AsPath(Init(f));
    SegmentsOfJoin(f);
    SegmentsOfJoin(t);
    ParentIsInit(Some(target));
    InitLast(f);
    assert IsPath(Init(f)) && IsSegment(last);
    BackParts(Init(f), t, parent, last, next);
    if target == next {
      JoinInjective(f, t);
    }
    UnderPath(Init(f), last);
    PlanMoveIs(next, parent, next, parent, last, target);
  }

  lemma BackParts(p: seq<Text>, t: seq<Text>, parent: Option<Text>, last: Text, next: Text)
    requires IsPath(p) && IsPath(t) && t != [] && t[|t| - 1] == last && parent == AsPath(p) && next == Join(t)
    ensures Normalize(Some(next)) == Some(next) && Normalize(parent) == parent && Label(next) == last
    ensures parent.Some? && IsWithin(parent, Some(next)) <==> t <= p
  {
    NormalizeJoined(t);
    JoinNonEmpty(t);
    SegmentsOfJoin(p);
    NormalizeIsCanonical(parent);
    LabelIsLast(t);
    WithinIsPrefix(p, t);
    JoinNonEmpty(p);
  }

  lemma NextPathIs(groups: seq<GroupRecord>, hosts: seq<HostRecord>, target: Text, next: Text, options: Options)
    ensures var r := Mutated(groups, hosts, target, next, options); r.Ok? ==> r.value.nextPath == next
  {
  }

  /** A move and the opposite one, both planned and carried out: unless the new place is above the old one, the
      way back restores every group path and every host's group if and only if the new place was vacant. */
  lemma MoveGroupAndBack(leq: Order, idOf: (Text, Text) -> Text, groups: seq<GroupRecord>, hosts: seq<HostRecord>, targetPath: Text, parentPath: Option<Text>,
                         options: Options, collected: seq<Text>, later: seq<Text>, target: Text, next: Text, m: Mutation)
    requires Respectful(options) && DistinctPaths(groups) && NormalPaths(groups)
    requires PlanMove(targetPath, parentPath) == Ok((target, next))
    requires Collected(collected, TargetsOf(groups) + HostTargets(hosts))
    requires Mutated(Materialized(leq, idOf, groups, hosts, target, collected), hosts, target, next, options) == Ok(m)
    requires Collected(later, TargetsOf(m.groups) + HostTargets(m.hosts))
    ensures m.nextPath == next
    ensures PlanMove(next, Parent(Some(target)))
         == if Segments(Some(next)) <= Init(Segments(Some(target))) then Err(IntoItself) else Ok((next, target))
    ensures var all := Materialized(leq, idOf, groups, hosts, target, collected);
            Restored(Mutated(Materialized(leq, idOf, m.groups, m.hosts, next, later), m.hosts, next, target, options), all, hosts, target)
            <==> Vacant(all, hosts, target, next)
  {
    NextPathIs(Materialized(leq, idOf, groups, hosts, target, collected), hosts, target, next, options);
    PlannedMove(targetPath, parentPath);
    PlannedBack(targetPath, parentPath, target, next);
    MoveThereAndBack(leq, idOf, groups, hosts, target, next, options, collected, later);
  }

  lemma PlanRenameIs(targetPath: Text, name: Text, target: Text, next: Text)
    requires Normalize(Some(targetPath)) == Some(target) && Trim(name) != []
    requires Normalize(Some(Under(Parent(Some(target)), Trim(name)))) == Some(next)
    ensures PlanRename(targetPath, name) == if next == target then Err(Unchanged) else Ok((target, next))
  {
  }

  lemma RenameBackIs(t: seq<Text>, last: Text, next: Text, back: seq<Text>)
    requires IsPath(t) && t != [] && next == Join(t) && IsSegment(last) && back == Init(t) + [last]
    ensures PlanRename(next, last) == if Join(back) == next then Err(Unchanged) else Ok((next, Join(back)))
  {
    assert IsPath(Init(t));
    NormalizeJoined(t);
    JoinNonEmpty(t);
    SegmentsOfJoin(t);
    ParentIsInit(Some(next));
    UnderPath(Init(t), last);
    TrimSegment(last);
    PlanRenameIs(next, last, next, Join(back));
  }

  lemma NewLast(t: seq<Text>, last: Text)
    requires IsPath(t) && IsSegment(last)
    ensures IsPath(Init(t) + [last])
  {
  }

  lemma SameInit(f: seq<Text>, t: seq<Text>, last: Text)
    requires f != [] && t != [] && last == f[|f| - 1] && Init(f) <= t
    ensures |t| == |f| <==> Init(t) + [last] == f
  {
  }

  /** Renaming back to the old label is planned as the opposite move exactly when the new name was one segment. */
  lemma RenamedBack(f: seq<Text>, t: seq<Text>, target: Text, next: Text)
    requires IsPath(f) && IsPath(t) && f != [] && t != [] && f != t && Init(f) <= t
    requires target == Join(f) && next == Join(t)
    ensures PlanRename(next, Label(target)) == Ok((next, target)) <==> |t| == |f|
  {
    var last := f[|f| - 1];
    var back := Init(t) + [last];
    assert IsSegment(last);
    NewLast(t, last);
    LabelIsLast(f);
    RenameBackIs(t, last, next, back);
    SameInit(f, t, last);
    if Join(back) == target {
      JoinInjective(f, back);
    }
    if next == target {
      JoinInjective(f, t);
    }
  }

  lemma TrimSegment(x: Text)
    requires IsSegment(x)
    ensures Trim(x) == x
  {
  }

  lemma PlannedRenameBack(targetPath: Text, name: Text, target: Text, next: Text)
    requires PlanRename(targetPath, name) == Ok((target, next))
    ensures IsNormal(target) && IsNormal(next)
    ensures PlanRename(next, Label(target)) == Ok((next, target)) <==> |Segments(Some(Trim(name)))| == 1
  {
    var f, n := Segments(Some(targetPath)), Segments(Some(Trim(name)));
    PlannedRename(targetPath, name);
    SegmentsArePath(Some(targetPath));
    SegmentsArePath(Some(Trim(name)));
    var t := Init(f) + n;
    assert IsPath(t);
    RenamedBack(f, t, target, next);
  }

  /** A rename and renaming back to the old label: the second is the opposite move exactly when the new name was
      one segment, and then it restores everything if and only if the new place was vacant. */
  lemma RenameGroupAndBack(leq: Order, idOf: (Text, Text) -> Text, groups: seq<GroupRecord>, hosts: seq<HostRecord>, targetPath: Text, name: Text,
                           options: Options, collected: seq<Text>, later: seq<Text>, target: Text, next: Text, m: Mutation)
    requires Respectful(options) && DistinctPaths(groups) && NormalPaths(groups)
    requires PlanRename(targetPath, name) == Ok((target, next))
    requires Collected(collected, TargetsOf(groups) + HostTargets(hosts))
    requires Mutated(Materialized(leq, idOf, groups, hosts, target, collected), hosts, target, next, options) == Ok(m)
    requires Collected(later, TargetsOf(m.groups) + HostTargets(m.hosts))
    ensures m.nextPath == next
    ensures PlanRename(next, Label(target)) == Ok((next, target)) <==> |Segments(Some(Trim(name)))| == 1
    ensures var all := Materialized(leq, idOf, groups, hosts, target, collected);
            Restored(Mutated(Materialized(leq, idOf, m.groups, m.hosts, next, later), m.hosts, next, target, options), all, hosts, target)
            <==> Vacant(all, hosts, target, next)
  {
    NextPathIs(Materialized(leq, idOf, groups, hosts, target, collected), hosts, target, next, options);
    PlannedRenameBack(targetPath, name, target, next);
    MoveThereAndBack(leq, idOf, groups, hosts, target, next, options, collected, later);
  }
}
