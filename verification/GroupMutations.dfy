/** Moving and removing groups (`packages/shared-core/src/group-mutations.ts`). */
module GroupMutations {
  import opened Words
  import opened JsText
  import opened GroupPaths
  import opened GroupTree
  import opened GroupCollect
  import opened GroupLists
  import GroupReorder

  /** `data` stands for the fields that moving a group does not touch. */
  datatype HostRecord = HostRecord(id: Text, groupName: Option<Text>, createdAt: Text, updatedAt: Text, data: Text)

  datatype Options = Options(timestamp: Text, pathAlsoOccupied: bool, normalizeHost: HostRecord -> HostRecord)

  datatype Mutation = Mutation(groups: seq<GroupRecord>, hosts: seq<HostRecord>, nextPath: Text)

  predicate HostInside(h: HostRecord, target: Text) {
    IsWithin(Normalize(h.groupName), Some(target))
  }

  /** The hosts inside a path, or those that are not. */
  function HostPart(hosts: seq<HostRecord>, target: Text, inside: bool): (r: seq<HostRecord>)
    ensures forall h :: h in r <==> h in hosts && HostInside(h, target) == inside
    decreases |hosts|
  {
    if hosts == [] then []
    else
      var h := hosts[|hosts| - 1];
      HostPart(hosts[..|hosts| - 1], target, inside) + if HostInside(h, target) == inside then [h] else []
  }

  // ---------------------------------------------------------------- groups that only hosts name

  /** The host with the least id among those inside a path; the first of them if ids are equal. */
  function Anchor(leq: Order, hosts: seq<HostRecord>, path: Text): (a: Option<HostRecord>)
    ensures a.Some? ==> a.value in hosts && HostInside(a.value, path)
    ensures a.None? <==> forall h :: h in hosts ==> !HostInside(h, path)
    decreases |hosts|
  {
    if hosts == [] then None
    else
      var init, h := hosts[..|hosts| - 1], hosts[|hosts| - 1];
      assert hosts == init + [h];
      var before := Anchor(leq, init, path);
      if !HostInside(h, path) then before
      else if before.Some? && leq(before.value.id, h.id) then before
      else Some(h)
  }

  /** The record made for a path; `idOf` stands for the hash of the anchor's id and the path. */
  function Implicit(idOf: (Text, Text) -> Text, anchor: HostRecord, path: Text): GroupRecord {
    GroupRecord(idOf(anchor.id, path), Label(path), path, Parent(Some(path)), None, anchor.createdAt, anchor.updatedAt)
  }

  /** A path gets a record when it has none, is inside the target and has a host. */
  function Needed(leq: Order, groups: seq<GroupRecord>, hosts: seq<HostRecord>, within: Option<Text>, path: Text): bool {
    !HasPath(groups, path) && IsWithin(Some(path), within) && Anchor(leq, hosts, path).Some?
  }

  function Additions(leq: Order, idOf: (Text, Text) -> Text, groups: seq<GroupRecord>, hosts: seq<HostRecord>, within: Option<Text>,
                     collected: seq<Text>): (r: seq<GroupRecord>)
    ensures forall k :: 0 <= k < |r| ==> r[k].path in collected && Needed(leq, groups, hosts, within, r[k].path)
    ensures forall x :: x in collected && Needed(leq, groups, hosts, within, x) ==> HasPath(r, x)
    decreases |collected|
  {
    if collected == [] then []
    else
      var init, x := collected[..|collected| - 1], collected[|collected| - 1];
      assert collected == init + [x];
      var before := Additions(leq, idOf, groups, hosts, within, init);
      if Needed(leq, groups, hosts, within, x) then
        var r := before + [Implicit(idOf, Anchor(leq, hosts, x).value, x)];
        assert forall y :: HasPath(before, y) ==> HasPath(r, y) by {
          assert forall k :: 0 <= k < |before| ==> r[k] == before[k];
        }
        assert r[|before|].path == x;
        r
      else before
  }

  function HostTargets(hosts: seq<HostRecord>): (r: seq<Option<Text>>)
    ensures |r| == |hosts|
  {
    seq(|hosts|, k requires 0 <= k < |hosts| => hosts[k].groupName)
  }

  method MaterializeImplicitHostGroups(leq: Order, idOf: (Text, Text) -> Text, groups: seq<GroupRecord>, hosts: seq<HostRecord>, within: Option<Text>)
    returns (all: seq<GroupRecord>)
    requires GroupReorder.TotalOrder(leq)
    ensures exists collected :: Collected(collected, TargetsOf(groups) + HostTargets(hosts))
                                && all == groups + Additions(leq, idOf, groups, hosts, within, collected)
  {
    var paths := CollectGroupPaths(leq, groups, HostTargets(hosts));
    var additions: seq<GroupRecord> := [];
    for index := 0 to |paths|
      invariant additions == Additions(leq, idOf, groups, hosts, within, paths[..index])
    {
      var path := paths[index];
      assert paths[..index + 1][..index] == paths[..index];
      if HasPath(groups, path) || !IsWithin(Some(path), within) {
        continue;
      }
      var anchor := Anchor(leq, hosts, path);
      if anchor.Some? {
        additions := additions + [Implicit(idOf, anchor.value, path)];
      }
    }
    assert paths[..|paths|] == paths;
    all := groups + additions;
  }

  lemma AdditionsSnoc(leq: Order, idOf: (Text, Text) -> Text, groups: seq<GroupRecord>, hosts: seq<HostRecord>, within: Option<Text>, init: seq<Text>, x: Text)
    ensures var before := Additions(leq, idOf, groups, hosts, within, init);
            Additions(leq, idOf, groups, hosts, within, init + [x])
            == if Needed(leq, groups, hosts, within, x) then before + [Implicit(idOf, Anchor(leq, hosts, x).value, x)] else before
  {
    assert (init + [x])[..|init|] == init;
  }

  lemma OneMoreDistinct(groups: seq<GroupRecord>, before: seq<GroupRecord>, g: GroupRecord)
    requires DistinctPaths(groups + before) && !HasPath(groups, g.path) && !HasPath(before, g.path)
    ensures DistinctPaths(groups + (before + [g]))
  {
    HasPathConcat(groups, before, g.path);
    PathsSnoc(groups + before, g);
    assert groups + (before + [g]) == groups + before + [g];
  }

  lemma {:induction false} AdditionsDistinct(leq: Order, idOf: (Text, Text) -> Text, groups: seq<GroupRecord>, hosts: seq<HostRecord>, within: Option<Text>,
                                             collected: seq<Text>)
    requires DistinctPaths(groups) && Distinct(collected)
    ensures DistinctPaths(groups + Additions(leq, idOf, groups, hosts, within, collected))
    decreases |collected|
  {
    if collected == [] {
      assert groups + [] == groups;
    } else {
      var init, x := collected[..|collected| - 1], collected[|collected| - 1];
      assert collected == init + [x];
      assert x !in init && Distinct(init);
      AdditionsDistinct(leq, idOf, groups, hosts, within, init);
      AdditionsSnoc(leq, idOf, groups, hosts, within, init, x);
      if Needed(leq, groups, hosts, within, x) {
        OneMoreDistinct(groups, Additions(leq, idOf, groups, hosts, within, init), Implicit(idOf, Anchor(leq, hosts, x).value, x));
      }
    }
  }

  // ---------------------------------------------------------------- moving a subtree

  function InsideOf(target: Text): Text -> bool {
    path => IsWithin(Some(path), Some(target))
  }

  function MoveTo(target: Text, next: Text): Move {
    path => Rebase(Some(path), target, Some(next))
  }

  /** The record at its new path; name and parent are worked out from the path again. */
  function Relocated(g: GroupRecord, path: Text, timestamp: Text): GroupRecord {
    g.(name := Label(path), path := path, parentPath := Parent(Some(path)), updatedAt := timestamp)
  }

  function PlaceAt(timestamp: Text): (place: Place)
    ensures Places(place)
  {
    (g, path) => Relocated(g, path, timestamp)
  }

  function MovedHost(h: HostRecord, target: Text, next: Text, options: Options): HostRecord {
    if !HostInside(h, target) then h
    else options.normalizeHost(h.(groupName := Rebase(Normalize(h.groupName), target, Some(next)), updatedAt := options.timestamp))
  }

  function MovedHosts(hosts: seq<HostRecord>, target: Text, next: Text, options: Options): (r: seq<HostRecord>)
    ensures |r| == |hosts|
    ensures forall k :: 0 <= k < |hosts| ==> r[k] == MovedHost(hosts[k], target, next, options)
  {
    seq(|hosts|, k requires 0 <= k < |hosts| => MovedHost(hosts[k], target, next, options))
  }

  /** There is something to move at all. */
  predicate Occupied(groups: seq<GroupRecord>, hosts: seq<HostRecord>, target: Text, options: Options) {
    Part(groups, InsideOf(target), true) != [] || HostPart(hosts, target, true) != [] || options.pathAlsoOccupied
  }

  /** `mutateGroupPathIn` once the implicit groups have their records. */
  function Mutated(groups: seq<GroupRecord>, hosts: seq<HostRecord>, target: Text, next: Text, options: Options): Result<Mutation, Error> {
    if !Occupied(groups, hosts, target, options) then Err(NotFound)
    else
      var others := Filled(Part(groups, InsideOf(target), false));
      if HasPath(others, next) then Err(AlreadyExists)
      else
        var moved := AddMoved(others, Part(groups, InsideOf(target), true), MoveTo(target, next), PlaceAt(options.timestamp));
        if moved.Err? then Err(moved.error)
        else Ok(Mutation(moved.value, MovedHosts(hosts, target, next, options), next))
  }

  method MutateGroupPathIn(leq: Order, idOf: (Text, Text) -> Text, groups: seq<GroupRecord>, hosts: seq<HostRecord>,
                           targetPath: Text, nextPath: Text, options: Options)
    returns (result: Result<Mutation, Error>)
    requires GroupReorder.TotalOrder(leq)
    ensures exists collected :: Collected(collected, TargetsOf(groups) + HostTargets(hosts))
                                && result == Mutated(Materialized(leq, idOf, groups, hosts, targetPath, collected), hosts, targetPath, nextPath, options)
  {
    var all := MaterializeImplicitHostGroups(leq, idOf, groups, hosts, Some(targetPath));
    ghost var collected :| Collected(collected, TargetsOf(groups) + HostTargets(hosts))
                           && all == groups + Additions(leq, idOf, groups, hosts, Some(targetPath), collected);
    assert all == Materialized(leq, idOf, groups, hosts, targetPath, collected);
    result := MutateMaterialized(all, hosts, targetPath, nextPath, options);
  }

  method MutateMaterialized(all: seq<GroupRecord>, hosts: seq<HostRecord>, targetPath: Text, nextPath: Text, options: Options)
    returns (result: Result<Mutation, Error>)
    ensures result == Mutated(all, hosts, targetPath, nextPath, options)
  {
    var affectedGroups := Part(all, InsideOf(targetPath), true);
    var affectedHosts := HostPart(hosts, targetPath, true);
    if affectedGroups == [] && affectedHosts == [] && !options.pathAlsoOccupied {
      return Err(NotFound);
    }
    var nextGroupsByPath := ByPath(all, InsideOf(targetPath));
    if HasPath(nextGroupsByPath, nextPath) {
      return Err(AlreadyExists);
    }
    var moved := AddMoved(nextGroupsByPath, affectedGroups, MoveTo(targetPath, nextPath), PlaceAt(options.timestamp));
    if moved.Err? {
      return Err(moved.error);
    }
    result := Ok(Mutation(moved.value, MovedHosts(hosts, targetPath, nextPath, options), nextPath));
  }

  /** The groups with records for those that only hosts name. */
  function Materialized(leq: Order, idOf: (Text, Text) -> Text, groups: seq<GroupRecord>, hosts: seq<HostRecord>, target: Text,
                        collected: seq<Text>): seq<GroupRecord> {
    groups + Additions(leq, idOf, groups, hosts, Some(target), collected)
  }

  // ---------------------------------------------------------------- what a move yields

  /** Whatever the records were, a move that succeeds leaves no two groups with one path. */
  lemma MoveKeepsPathsDistinct(groups: seq<GroupRecord>, hosts: seq<HostRecord>, target: Text, next: Text, options: Options)
    requires Mutated(groups, hosts, target, next, options).Ok?
    ensures DistinctPaths(Mutated(groups, hosts, target, next, options).value.groups)
  {
    var others, affected := Filled(Part(groups, InsideOf(target), false)), Part(groups, InsideOf(target), true);
    AddMovedDistinct(others, affected, MoveTo(target, next), PlaceAt(options.timestamp));
  }

  /** What a move yields when no two groups shared a path: the others, then the subtree at its new place. */
  lemma MoveYields(groups: seq<GroupRecord>, hosts: seq<HostRecord>, target: Text, next: Text, options: Options)
    requires DistinctPaths(groups)
    ensures var others, affected := Part(groups, InsideOf(target), false), Part(groups, InsideOf(target), true);
            var all := others + MovedAll(affected, MoveTo(target, next), PlaceAt(options.timestamp));
            var r := Mutated(groups, hosts, target, next, options);
            && (r.Ok? <==> Occupied(groups, hosts, target, options) && !HasPath(others, next)
                           && AllLand(affected, MoveTo(target, next)) && DistinctPaths(all))
            && (r.Ok? ==> r.value == Mutation(all, MovedHosts(hosts, target, next, options), next))
  {
    PartPaths(groups, InsideOf(target), false);
    FilledDistinct(Part(groups, InsideOf(target), false));
    AddMovedIs(Part(groups, InsideOf(target), false), Part(groups, InsideOf(target), true), MoveTo(target, next), PlaceAt(options.timestamp));
  }

  // ---------------------------------------------------------------- normalized paths

  ghost predicate NormalPaths(groups: seq<GroupRecord>) {
    forall k :: 0 <= k < |groups| ==> IsNormal(groups[k].path)
  }

  lemma MovedSegments(x: Text, y: Text, target: Text, next: Text, p: seq<Text>, f: seq<Text>, t: seq<Text>)
    requires IsPath(p) && IsPath(f) && IsPath(t) && f != [] && t != [] && f <= p
    requires x == Join(p) && target == Join(f) && next == Join(t) && y == Join(t + p[|f|..])
    ensures InsideOf(target)(x)
    ensures Target(MoveTo(target, next), x) == y
  {
    JoinNonEmpty(p);
    JoinNonEmpty(f);
    WithinIsPrefix(p, f);
    RebasedSegments(p, f, t);
    JoinNonEmpty(t + p[|f|..]);
  }

  lemma RebasedSegments(p: seq<Text>, f: seq<Text>, t: seq<Text>)
    requires IsPath(p) && IsPath(f) && IsPath(t) && f != [] && f <= p
    ensures Rebase(Some(Join(p)), Join(f), Some(Join(t))) == AsPath(t + p[|f|..])
  {
    SegmentsOfJoin(p);
    SegmentsOfJoin(f);
    SegmentsOfJoin(t);
    RebaseMovesPrefix(Some(Join(p)), Join(f), Some(Join(t)));
  }

  lemma NormalInside(x: Text, target: Text) returns (p: seq<Text>, f: seq<Text>)
    requires IsNormal(x) && IsNormal(target) && InsideOf(target)(x)
    ensures IsPath(p) && IsPath(f) && p != [] && f != [] && x == Join(p) && target == Join(f) && f <= p
  {
    p :| IsPath(p) && p != [] && x == Join(p);
    f :| IsPath(f) && f != [] && target == Join(f);
    JoinNonEmpty(p);
    JoinNonEmpty(f);
    WithinIsPrefix(p, f);
  }

  lemma SegmentsReturn(x: Text, target: Text, next: Text, p: seq<Text>, f: seq<Text>, t: seq<Text>)
    requires IsPath(p) && IsPath(f) && IsPath(t) && f != [] && t != [] && f <= p
    requires x != [] && x == Join(p) && target == Join(f) && next == Join(t)
    ensures Undone(x, MoveTo(target, next), InsideOf(next), MoveTo(next, target))
  {
    var q := t + p[|f|..];
    var y := Join(q);
    MovedSegments(x, y, target, next, p, f, t);
    assert f + q[|t|..] == p;
    MovedSegments(y, x, next, target, q, t, f);
    UndoneIs(x, y, MoveTo(target, next), InsideOf(next), MoveTo(next, target));
  }

  lemma UndoneIs(x: Text, y: Text, move: Move, there: Text -> bool, back: Move)
    requires x != [] && there(y) && Target(move, x) == y && Target(back, y) == x
    ensures Undone(x, move, there, back)
  {
  }

  /** A path inside the target lands inside the new place, and moving it back restores it. */
  lemma MoveIsUndone(x: Text, target: Text, next: Text)
    requires IsNormal(x) && IsNormal(target) && IsNormal(next) && InsideOf(target)(x)
    ensures Undone(x, MoveTo(target, next), InsideOf(next), MoveTo(next, target))
  {
    var p, f := NormalInside(x, target);
    var t :| IsPath(t) && t != [] && next == Join(t);
    NormalIsNode(x);
    SegmentsReturn(x, target, next, p, f, t);
  }

  // ---------------------------------------------------------------- hosts

  /** The caller's normalization may touch a host, but neither its id nor the group it is in. */
  ghost predicate Respectful(options: Options) {
    forall h :: options.normalizeHost(h).id == h.id && Segments(options.normalizeHost(h).groupName) == Segments(h.groupName)
  }

  /** Every host is kept, in its place in the list, with the group it was in moved along. */
  lemma HostsMove(hosts: seq<HostRecord>, target: Text, next: Text, options: Options)
    requires Respectful(options) && IsNormal(target) && IsNormal(next)
    ensures var r := MovedHosts(hosts, target, next, options);
            |r| == |hosts| && forall k :: 0 <= k < |hosts| ==>
              r[k].id == hosts[k].id
              && Segments(r[k].groupName) == Moved(Segments(hosts[k].groupName), Segments(Some(target)), Segments(Some(next)))
  {
    forall k | 0 <= k < |hosts| {
      HostMoves(hosts[k], target, next, options);
    }
  }

  lemma HostInsideIs(h: HostRecord, target: Text)
    requires IsNormal(target)
    ensures Segments(Some(target)) != []
    ensures HostInside(h, target) <==> Segments(Some(target)) <= Segments(h.groupName)
  {
    var f :| IsPath(f) && f != [] && target == Join(f);
    SegmentsOfJoin(f);
    JoinNonEmpty(f);
    SegmentsArePath(h.groupName);
    WithinIsPrefix(Segments(h.groupName), f);
  }

  lemma HostMoves(h: HostRecord, target: Text, next: Text, options: Options)
    requires Respectful(options) && IsNormal(target)
    ensures MovedHost(h, target, next, options).id == h.id
    ensures Segments(MovedHost(h, target, next, options).groupName)
            == Moved(Segments(h.groupName), Segments(Some(target)), Segments(Some(next)))
  {
    HostInsideIs(h, target);
    if HostInside(h, target) {
      var p := Segments(h.groupName);
      NormalizeIsCanonical(h.groupName);
      RebaseMovesPrefix(Normalize(h.groupName), target, Some(next));
      MovedIsPath(p, target, next, h.groupName);
      SegmentsOfJoin(Moved(p, Segments(Some(target)), Segments(Some(next))));
    }
  }

  lemma MovedIsPath(p: seq<Text>, target: Text, next: Text, name: Option<Text>)
    requires p == Segments(name)
    ensures IsPath(Moved(p, Segments(Some(target)), Segments(Some(next))))
  {
    SegmentsArePath(name);
    SegmentsArePath(Some(target));
    SegmentsArePath(Some(next));
  }

  // ---------------------------------------------------------------- there and back

  /** Nothing outside the target is inside the new place. */
  ghost predicate Vacant(groups: seq<GroupRecord>, hosts: seq<HostRecord>, target: Text, next: Text) {
    && (forall g :: g in groups && InsideOf(next)(g.path) ==> InsideOf(target)(g.path))
    && (forall h :: h in hosts && HostInside(h, next) ==> HostInside(h, target))
  }

  lemma NotAmongOthers(groups: seq<GroupRecord>, target: Text)
    requires IsNormal(target)
    ensures !HasPath(Part(groups, InsideOf(target), false), target)
  {
    NormalIsNode(target);
    AllOf(groups, InsideOf(target), false);
  }

  /** The groups after moving there and back: all at the paths they had, the others first. */
  lemma GroupsReturn(groups: seq<GroupRecord>, hosts: seq<HostRecord>, back: seq<HostRecord>, target: Text, next: Text, options: Options)
    requires DistinctPaths(groups) && NormalPaths(groups) && IsNormal(target) && IsNormal(next)
    requires Mutated(groups, hosts, target, next, options).Ok? && Vacant(groups, hosts, target, next)
    requires HostPart(back, next, true) == [] <==> HostPart(hosts, target, true) == []
    ensures var moved := Mutated(groups, hosts, target, next, options).value.groups;
            var r := Mutated(moved, back, next, target, options);
            r.Ok? && SamePlaces(r.value.groups, Part(groups, InsideOf(target), false) + Part(groups, InsideOf(target), true))
  {
    forall g | g in groups && InsideOf(target)(g.path)
      ensures Undone(g.path, MoveTo(target, next), InsideOf(next), MoveTo(next, target))
    {
      MoveIsUndone(g.path, target, next);
    }
    var place := PlaceAt(options.timestamp);
    ThereAndBackAgain(groups, InsideOf(target), MoveTo(target, next), InsideOf(next), MoveTo(next, target), place);
    MoveYields(groups, hosts, target, next, options);
    var others, affected := Part(groups, InsideOf(target), false), Part(groups, InsideOf(target), true);
    var moved := MovedAll(affected, MoveTo(target, next), place);
    NotAmongOthers(groups, target);
    MoveKeepsPathsDistinct(groups, hosts, target, next, options);
    MoveYields(others + moved, back, next, target, options);
  }

  /** A host is inside the new place after the move exactly when it was inside the target before. */
  lemma HostInsideMoved(h: HostRecord, target: Text, next: Text, options: Options)
    requires Respectful(options) && IsNormal(target) && IsNormal(next)
    requires HostInside(h, next) ==> HostInside(h, target)
    ensures HostInside(MovedHost(h, target, next, options), next) <==> HostInside(h, target)
    ensures Moved(Segments(MovedHost(h, target, next, options).groupName), Segments(Some(next)), Segments(Some(target)))
            == Segments(h.groupName)
  {
    var moved := MovedHost(h, target, next, options);
    HostMoves(h, target, next, options);
    HostInsideIs(h, target);
    HostInsideIs(h, next);
    HostInsideIs(moved, next);
    ThereAndBack(Segments(h.groupName), Segments(Some(target)), Segments(Some(next)));
  }

  /** The hosts after moving there and back: each in its place, in the group it was in. */
  lemma HostsReturn(hosts: seq<HostRecord>, target: Text, next: Text, options: Options)
    requires Respectful(options) && IsNormal(target) && IsNormal(next)
    requires forall h :: h in hosts && HostInside(h, next) ==> HostInside(h, target)
    ensures var moved := MovedHosts(hosts, target, next, options);
            var r := MovedHosts(moved, next, target, options);
            && (HostPart(moved, next, true) == [] <==> HostPart(hosts, target, true) == [])
            && |r| == |hosts|
            && forall k :: 0 <= k < |hosts| ==> r[k].id == hosts[k].id && Segments(r[k].groupName) == Segments(hosts[k].groupName)
  {
    var moved := MovedHosts(hosts, target, next, options);
    var r := MovedHosts(moved, next, target, options);
    forall k | 0 <= k < |hosts|
      ensures r[k].id == hosts[k].id && Segments(r[k].groupName) == Segments(hosts[k].groupName)
      ensures HostInside(moved[k], next) <==> HostInside(hosts[k], target)
    {
      HostInsideMoved(hosts[k], target, next, options);
      HostMoves(hosts[k], target, next, options);
      HostMoves(moved[k], next, target, options);
    }
    SomeInside(hosts, target);
    SomeInside(moved, next);
  }

  lemma SomeInside(hosts: seq<HostRecord>, target: Text)
    ensures HostPart(hosts, target, true) == [] <==> forall k :: 0 <= k < |hosts| ==> !HostInside(hosts[k], target)
  {
    var part := HostPart(hosts, target, true);
    if part != [] {
      assert part[0] in part;
    } else {
      assert forall k :: 0 <= k < |hosts| ==> hosts[k] in hosts && hosts[k] !in part;
    }
  }

  lemma AdditionsAreNormal(leq: Order, idOf: (Text, Text) -> Text, groups: seq<GroupRecord>, hosts: seq<HostRecord>, target: Text, collected: seq<Text>)
    requires NormalPaths(groups) && DistinctPaths(groups)
    requires Collected(collected, TargetsOf(groups) + HostTargets(hosts))
    ensures NormalPaths(Materialized(leq, idOf, groups, hosts, target, collected))
    ensures DistinctPaths(Materialized(leq, idOf, groups, hosts, target, collected))
  {
    CollectedIsForest(collected, TargetsOf(groups) + HostTargets(hosts));
    AdditionsDistinct(leq, idOf, groups, hosts, Some(target), collected);
  }

  /** Every path above a host inside the target has a record, once the implicit groups have theirs. */
  lemma AboveHostHasRecord(leq: Order, idOf: (Text, Text) -> Text, groups: seq<GroupRecord>, hosts: seq<HostRecord>, target: Text, collected: seq<Text>,
                           h: HostRecord, x: Text)
    requires Collected(collected, TargetsOf(groups) + HostTargets(hosts)) && h in hosts
    requires NamedBy(x, h.groupName) && InsideOf(target)(x) && HostInside(h, x)
    ensures HasPath(Materialized(leq, idOf, groups, hosts, target, collected), x)
  {
    var targets := TargetsOf(groups) + HostTargets(hosts);
    var k :| 0 <= k < |hosts| && hosts[k] == h;
    assert targets[|groups| + k] == h.groupName;
    assert NamedByOne(x, targets);
    HasPathConcat(groups, Additions(leq, idOf, groups, hosts, Some(target), collected), x);
  }

  lemma CutPrefix(p: seq<Text>, f: seq<Text>, t: seq<Text>, px: seq<Text>)
    requires f <= p && t <= px <= t + p[|f|..]
    ensures |px| - |t| + |f| <= |p|
    ensures var q := p[..|px| - |t| + |f|]; f <= q <= p && px == t + q[|f|..]
  {
    var q := p[..|px| - |t| + |f|];
    assert px == (t + p[|f|..])[..|px|];
    assert q[|f|..] == p[|f|..][..|px| - |t|];
  }

  /** The path that `x` was before the move: `x` is inside the new place and above a host that was moved,
      so what it came from was above that host. */
  lemma CameFrom(h: HostRecord, moved: HostRecord, x: Text, target: Text, next: Text, options: Options) returns (before: Text)
    requires Respectful(options) && IsNormal(x) && IsNormal(target) && IsNormal(next)
    requires HostInside(h, target) && moved == MovedHost(h, target, next, options)
    requires InsideOf(next)(x) && HostInside(moved, x)
    ensures NamedBy(before, h.groupName) && IsNormal(before) && InsideOf(target)(before) && HostInside(h, before)
    ensures Target(MoveTo(target, next), before) == x
  {
    var px, t := NormalInside(x, next);
    var f :| IsPath(f) && f != [] && target == Join(f);
    var p := Segments(h.groupName);
    HostPrefix(h, target, f);
    HostPrefix(moved, x, px);
    assert Segments(moved.groupName) == t + p[|f|..] by {
      HostMoves(h, target, next, options);
      SegmentsOfJoin(f);
      SegmentsOfJoin(t);
    }
    CutPrefix(p, f, t, px);
    var q := p[..|px| - |t| + |f|];
    SegmentsArePath(h.groupName);
    before := Join(q);
    PrefixNames(h, q);
    MovedSegments(before, x, target, next, q, f, t);
  }

  lemma HostPrefix(h: HostRecord, x: Text, px: seq<Text>)
    requires IsPath(px) && px != [] && x == Join(px)
    ensures HostInside(h, x) <==> px <= Segments(h.groupName)
  {
    assert IsNormal(x);
    HostInsideIs(h, x);
    SegmentsOfJoin(px);
  }

  lemma PrefixNames(h: HostRecord, q: seq<Text>)
    requires q != [] && q <= Segments(h.groupName)
    ensures IsPath(q) && IsNormal(Join(q)) && NamedBy(Join(q), h.groupName) && HostInside(h, Join(q))
  {
    SegmentsArePath(h.groupName);
    assert q == Segments(h.groupName)[..|q|];
    assert IsPath(q);
    assert IsNormal(Join(q));
    HostPrefix(h, Join(q), q);
  }

  lemma MovedHasPath(affected: seq<GroupRecord>, move: Move, place: Place, g: GroupRecord)
    requires Places(place) && g in affected
    ensures HasPath(MovedAll(affected, move, place), Target(move, g.path))
  {
    var k :| 0 <= k < |affected| && affected[k] == g;
    assert MovedAll(affected, move, place)[k].path == Target(move, g.path);
  }

  /** After a move, every path above a host inside the new place has a record. */
  lemma NothingNeeded(leq: Order, idOf: (Text, Text) -> Text, groups: seq<GroupRecord>, hosts: seq<HostRecord>, target: Text, next: Text, options: Options,
                      collected: seq<Text>, h: HostRecord, x: Text)
    requires Respectful(options) && IsNormal(target) && IsNormal(next) && IsNormal(x) && DistinctPaths(groups) && NormalPaths(groups)
    requires Collected(collected, TargetsOf(groups) + HostTargets(hosts))
    requires var all := Materialized(leq, idOf, groups, hosts, target, collected);
             Mutated(all, hosts, target, next, options).Ok? && Vacant(all, hosts, target, next)
    requires h in hosts && InsideOf(next)(x) && HostInside(MovedHost(h, target, next, options), x)
    ensures HasPath(Mutated(Materialized(leq, idOf, groups, hosts, target, collected), hosts, target, next, options).value.groups, x)
  {
    var all := Materialized(leq, idOf, groups, hosts, target, collected);
    AdditionsAreNormal(leq, idOf, groups, hosts, target, collected);
    InsideNested(MovedHost(h, target, next, options), x, next);
    HostInsideMoved(h, target, next, options);
    var before := CameFrom(h, MovedHost(h, target, next, options), x, target, next, options);
    AboveHostHasRecord(leq, idOf, groups, hosts, target, collected, h, before);
    var k :| 0 <= k < |all| && all[k].path == before;
    MoveYields(all, hosts, target, next, options);
    var others, affected := Part(all, InsideOf(target), false), Part(all, InsideOf(target), true);
    assert all[k] in all;
    assert all[k] in affected;
    var place := PlaceAt(options.timestamp);
    MovedHasPath(affected, MoveTo(target, next), place, all[k]);
    HasPathConcat(others, MovedAll(affected, MoveTo(target, next), place), x);
  }

  lemma InsideNested(h: HostRecord, x: Text, next: Text)
    requires IsNormal(x) && IsNormal(next) && InsideOf(next)(x) && HostInside(h, x)
    ensures HostInside(h, next)
  {
    var px, t := NormalInside(x, next);
    SegmentsOfJoin(px);
    SegmentsOfJoin(t);
    HostInsideIs(h, x);
    HostInsideIs(h, next);
  }

  lemma {:induction false} NoneNeeded(leq: Order, idOf: (Text, Text) -> Text, groups: seq<GroupRecord>, hosts: seq<HostRecord>, within: Option<Text>,
                                      collected: seq<Text>)
    requires forall k :: 0 <= k < |collected| ==> !Needed(leq, groups, hosts, within, collected[k])
    ensures Additions(leq, idOf, groups, hosts, within, collected) == []
    decreases |collected|
  {
    if collected != [] {
      NoneNeeded(leq, idOf, groups, hosts, within, collected[..|collected| - 1]);
    }
  }

  lemma NotNeeded(leq: Order, idOf: (Text, Text) -> Text, groups: seq<GroupRecord>, hosts: seq<HostRecord>, target: Text, next: Text, options: Options,
                  collected: seq<Text>, m: Mutation, x: Text)
    requires Respectful(options) && IsNormal(target) && IsNormal(next) && IsNormal(x) && DistinctPaths(groups) && NormalPaths(groups)
    requires Collected(collected, TargetsOf(groups) + HostTargets(hosts))
    requires var all := Materialized(leq, idOf, groups, hosts, target, collected);
             Mutated(all, hosts, target, next, options) == Ok(m) && Vacant(all, hosts, target, next)
    requires m.hosts == MovedHosts(hosts, target, next, options)
    ensures !Needed(leq, m.groups, m.hosts, Some(next), x)
  {
    var anchor := Anchor(leq, m.hosts, x);
    if anchor.Some? && InsideOf(next)(x) {
      var n :| 0 <= n < |m.hosts| && m.hosts[n] == anchor.value;
      NothingNeeded(leq, idOf, groups, hosts, target, next, options, collected, hosts[n], x);
    }
  }

  /** Moving back therefore finds no implicit group to make a record for. */
  lemma NothingToAdd(leq: Order, idOf: (Text, Text) -> Text, groups: seq<GroupRecord>, hosts: seq<HostRecord>, target: Text, next: Text, options: Options,
                     collected: seq<Text>, later: seq<Text>, m: Mutation)
    requires Respectful(options) && IsNormal(target) && IsNormal(next) && DistinctPaths(groups) && NormalPaths(groups)
    requires Collected(collected, TargetsOf(groups) + HostTargets(hosts))
    requires var all := Materialized(leq, idOf, groups, hosts, target, collected);
             Mutated(all, hosts, target, next, options) == Ok(m) && Vacant(all, hosts, target, next)
    requires Collected(later, TargetsOf(m.groups) + HostTargets(m.hosts))
    ensures Additions(leq, idOf, m.groups, m.hosts, Some(next), later) == []
  {
    CollectedIsForest(later, TargetsOf(m.groups) + HostTargets(m.hosts));
    MutatedHosts(Materialized(leq, idOf, groups, hosts, target, collected), hosts, target, next, options);
    forall k | 0 <= k < |later| ensures !Needed(leq, m.groups, m.hosts, Some(next), later[k]) {
      assert later[k] in later;
      NotNeeded(leq, idOf, groups, hosts, target, next, options, collected, m, later[k]);
    }
    NoneNeeded(leq, idOf, m.groups, m.hosts, Some(next), later);
  }

  /** Every group of `all` is at the path it had, the groups outside the target first, and every host is in
      its place and in the group it was in. */
  predicate Restored(r: Result<Mutation, Error>, all: seq<GroupRecord>, hosts: seq<HostRecord>, target: Text) {
    && r.Ok?
    && SamePlaces(r.value.groups, Part(all, InsideOf(target), false) + Part(all, InsideOf(target), true))
    && |r.value.hosts| == |hosts|
    && forall k :: 0 <= k < |hosts| ==>
         r.value.hosts[k].id == hosts[k].id && Segments(r.value.hosts[k].groupName) == Segments(hosts[k].groupName)
  }

  /** Moving a subtree to a place where nothing else is, and moving it back, restores everything. The
      records made for implicit groups on the way stay; moving back makes no more. */
  lemma VacantRestores(leq: Order, idOf: (Text, Text) -> Text, groups: seq<GroupRecord>, hosts: seq<HostRecord>, target: Text, next: Text, options: Options,
                       collected: seq<Text>, later: seq<Text>)
    requires Respectful(options) && IsNormal(target) && IsNormal(next) && DistinctPaths(groups) && NormalPaths(groups)
    requires Collected(collected, TargetsOf(groups) + HostTargets(hosts))
    requires var all := Materialized(leq, idOf, groups, hosts, target, collected);
             Mutated(all, hosts, target, next, options).Ok? && Vacant(all, hosts, target, next)
    requires var m := Mutated(Materialized(leq, idOf, groups, hosts, target, collected), hosts, target, next, options).value;
             Collected(later, TargetsOf(m.groups) + HostTargets(m.hosts))
    ensures var all := Materialized(leq, idOf, groups, hosts, target, collected);
            var m := Mutated(all, hosts, target, next, options).value;
            Restored(Mutated(Materialized(leq, idOf, m.groups, m.hosts, next, later), m.hosts, next, target, options), all, hosts, target)
  {
    var all := Materialized(leq, idOf, groups, hosts, target, collected);
    var m := Mutated(all, hosts, target, next, options).value;
    AdditionsAreNormal(leq, idOf, groups, hosts, target, collected);
    NothingToAdd(leq, idOf, groups, hosts, target, next, options, collected, later, m);
    assert Materialized(leq, idOf, m.groups, m.hosts, next, later) == m.groups;
    MoveYields(all, hosts, target, next, options);
    HostsReturn(hosts, target, next, options);
    GroupsReturn(all, hosts, m.hosts, target, next, options);
    MutatedHosts(m.groups, m.hosts, next, target, options);
  }

  lemma MutatedHosts(groups: seq<GroupRecord>, hosts: seq<HostRecord>, target: Text, next: Text, options: Options)
    ensures Mutated(groups, hosts, target, next, options).Ok? ==>
              Mutated(groups, hosts, target, next, options).value.hosts == MovedHosts(hosts, target, next, options)
  {
  }

  // ---------------------------------------------------------------- renaming and moving

  /** Where `moveGroupIn` sends a group: the normalized target, and the new path. */
  function PlanMove(targetPath: Text, parentPath: Option<Text>): Result<(Text, Text), Error> {
    var target := Normalize(Some(targetPath));
    var parent := Normalize(parentPath);
    if target.None? then Err(PathInvalid)
    else if parent.Some? && IsWithin(parent, target) then Err(IntoItself)
    else
      var next := Normalize(Some(Under(parent, Label(target.value))));
      if next.None? then Err(PathInvalid)
      else if next == target then Err(Unchanged)
      else Ok((target.value, next.value))
  }

  lemma UnderPath(p: seq<Text>, last: Text)
    requires IsPath(p) && IsSegment(last)
    ensures Normalize(Some(Under(AsPath(p), last))) == Some(Join(p + [last])) && IsNormal(Join(p + [last]))
  {
    JoinUnder(p, [last]);
    NormalizeJoined(p + [last]);
    JoinNonEmpty(p + [last]);
    assert IsPath(p + [last]);
  }

  lemma PrefixOfSnoc(f: seq<Text>, p: seq<Text>, last: Text)
    ensures f <= p + [last] ==> f <= p || f == p + [last]
  {
  }

  /** A planned move keeps the name, changes the parent, and never goes into the moved subtree. */
  lemma PlannedMove(targetPath: Text, parentPath: Option<Text>)
    requires PlanMove(targetPath, parentPath).Ok?
    ensures var (target, next) := PlanMove(targetPath, parentPath).value;
            var f, p := Segments(Some(targetPath)), Segments(parentPath);
            && f != [] && target == Join(f) && next == Join(p + [f[|f| - 1]])
            && IsNormal(target) && IsNormal(next) && !(f <= p + [f[|f| - 1]])
  {
    var f, p := Segments(Some(targetPath)), Segments(parentPath);
    SegmentsArePath(Some(targetPath));
    SegmentsArePath(parentPath);
    JoinNonEmpty(f);
    var last := f[|f| - 1];
    assert IsSegment(last);
    LabelIsLast(f);
    UnderPath(p, last);
    NotIntoItself(p, f);
    PrefixOfSnoc(f, p, last);
  }

  lemma NotIntoItself(p: seq<Text>, f: seq<Text>)
    requires IsPath(p) && IsPath(f) && f != []
    ensures f <= p ==> AsPath(p).Some? && IsWithin(AsPath(p), AsPath(f))
  {
    JoinNonEmpty(p);
    WithinIsPrefix(p, f);
  }

  /** Where `renameGroupIn` sends a group. */
  function PlanRename(targetPath: Text, name: Text): Result<(Text, Text), Error> {
    var target := Normalize(Some(targetPath));
    var cleaned := Trim(name);
    if target.None? then Err(PathInvalid)
    else if cleaned == [] then Err(NameRequired)
    else
      var next := Normalize(Some(Under(Parent(target), cleaned)));
      if next.None? then Err(PathInvalid)
      else if next == target then Err(Unchanged)
      else Ok((target.value, next.value))
  }

  lemma SegmentsUnder(p: seq<Text>, text: Text)
    requires IsPath(p)
    ensures Segments(Some(Under(AsPath(p), text))) == p + Segments(Some(text))
  {
    JoinNonEmpty(p);
    if p == [] {
      assert p + Segments(Some(text)) == Segments(Some(text));
    } else {
      SplitConcat(Join(p), text);
      SplitJoin(p);
      KeptConcat(p, Split(text));
      KeptAll(p);
    }
  }

  /** A planned rename keeps the parent and puts the segments of the new name in place of the last one. */
  lemma PlannedRename(targetPath: Text, name: Text)
    requires PlanRename(targetPath, name).Ok?
    ensures var (target, next) := PlanRename(targetPath, name).value;
            var f, n := Segments(Some(targetPath)), Segments(Some(Trim(name)));
            && f != [] && target == Join(f) && next == Join(Init(f) + n) && Init(f) + n != [] && Init(f) + n != f
            && IsNormal(target) && IsNormal(next)
  {
    var f := Segments(Some(targetPath));
    var under := Under(AsPath(Init(f)), Trim(name));
    SegmentsArePath(Some(targetPath));
    JoinNonEmpty(f);
    ParentOfPath(f);
    SegmentsUnder(Init(f), Trim(name));
    SegmentsArePath(Some(under));
    JoinNonEmpty(Segments(Some(under)));
  }

  // ---------------------------------------------------------------- removing a group

  datatype Mode = DeleteSubtree | ReparentDescendants

  datatype Removal = Removal(groups: seq<GroupRecord>, hosts: seq<HostRecord>, removedGroupIds: seq<Text>, removedHostIds: seq<Text>)

  function HostIds(hosts: seq<HostRecord>): (r: seq<Text>)
    ensures |r| == |hosts| && forall k :: 0 <= k < |r| ==> r[k] == hosts[k].id
  {
    seq(|hosts|, k requires 0 <= k < |hosts| => hosts[k].id)
  }

  function LiftFrom(target: Text): Move {
    path => StripRemoved(Some(path), target)
  }

  function LiftedHost(h: HostRecord, target: Text, options: Options): HostRecord {
    if !HostInside(h, target) then h
    else options.normalizeHost(h.(groupName := StripRemoved(Normalize(h.groupName), target), updatedAt := options.timestamp))
  }

  function LiftedHosts(hosts: seq<HostRecord>, target: Text, options: Options): (r: seq<HostRecord>)
    ensures |r| == |hosts|
    ensures forall k :: 0 <= k < |hosts| ==> r[k] == LiftedHost(hosts[k], target, options)
  {
    seq(|hosts|, k requires 0 <= k < |hosts| => LiftedHost(hosts[k], target, options))
  }

  /** What `removeGroupFrom` yields for a group that is there. */
  function Removed(groups: seq<GroupRecord>, hosts: seq<HostRecord>, target: Text, mode: Mode, options: Options): Removal {
    var outside, affected := Part(groups, InsideOf(target), false), Part(groups, InsideOf(target), true);
    if mode.DeleteSubtree? then
      Removal(outside, HostPart(hosts, target, false), Ids(affected), HostIds(HostPart(hosts, target, true)))
    else
      var lifted := LiftAll(Filled(outside), affected, target, LiftFrom(target), PlaceAt(options.timestamp));
      Removal(lifted.kept, LiftedHosts(hosts, target, options), lifted.removed, [])
  }

  method RemoveGroupFrom(groups: seq<GroupRecord>, hosts: seq<HostRecord>, targetPath: Text, mode: Mode, options: Options)
    returns (result: Result<Removal, Error>)
    ensures var target := Normalize(Some(targetPath));
            result == if target.None? then Err(PathInvalid)
                      else if !Occupied(groups, hosts, target.value, options) then Err(NotFound)
                      else Ok(Removed(groups, hosts, target.value, mode, options))
  {
    var normalized := Normalize(Some(targetPath));
    if normalized.None? {
      return Err(PathInvalid);
    }
    var target := normalized.value;
    var affected := Part(groups, InsideOf(target), true);
    var affectedHosts := HostPart(hosts, target, true);
    if affected == [] && affectedHosts == [] && !options.pathAlsoOccupied {
      return Err(NotFound);
    }
    if mode.DeleteSubtree? {
      return Ok(Removal(Part(groups, InsideOf(target), false), HostPart(hosts, target, false), Ids(affected), HostIds(affectedHosts)));
    }
    var byPath := ByPath(groups, InsideOf(target));
    var lifted := LiftAffected(byPath, affected, target, LiftFrom(target), PlaceAt(options.timestamp));
    result := Ok(Removal(lifted.kept, LiftedHosts(hosts, target, options), lifted.removed, []));
  }

  /** In either mode the ids of the groups split exactly into kept and removed, and no two kept groups
      share a path. */
  lemma RemovalSplitsGroups(groups: seq<GroupRecord>, hosts: seq<HostRecord>, target: Text, mode: Mode, options: Options)
    requires DistinctPaths(groups)
    ensures var r := Removed(groups, hosts, target, mode, options);
            && multiset(Ids(r.groups)) + multiset(r.removedGroupIds) == multiset(Ids(groups))
            && DistinctPaths(r.groups)
  {
    var outside, affected := Part(groups, InsideOf(target), false), Part(groups, InsideOf(target), true);
    PartPaths(groups, InsideOf(target), false);
    PartsSplitIds(groups, InsideOf(target));
    FilledDistinct(outside);
    LiftSplitsIds(outside, affected, target, LiftFrom(target), PlaceAt(options.timestamp));
  }

  lemma HostPartSnoc(hosts: seq<HostRecord>, h: HostRecord, target: Text, inside: bool)
    ensures HostPart(hosts + [h], target, inside) == HostPart(hosts, target, inside) + if HostInside(h, target) == inside then [h] else []
    ensures HostIds(hosts + [h]) == HostIds(hosts) + [h.id]
  {
    assert (hosts + [h])[..|hosts|] == hosts;
  }

  lemma {:induction false} HostPartsSplitIds(hosts: seq<HostRecord>, target: Text)
    ensures multiset(HostIds(HostPart(hosts, target, false))) + multiset(HostIds(HostPart(hosts, target, true))) == multiset(HostIds(hosts))
    decreases |hosts|
  {
    if hosts != [] {
      var init, h := hosts[..|hosts| - 1], hosts[|hosts| - 1];
      assert hosts == init + [h];
      HostPartsSplitIds(init, target);
      HostPartSnoc(init, h, target, HostInside(h, target));
      HostPartSnoc(init, h, target, !HostInside(h, target));
      HostPartSnoc(HostPart(init, target, HostInside(h, target)), h, target, true);
      assert HostPart(init, target, !HostInside(h, target)) + [] == HostPart(init, target, !HostInside(h, target));
    }
  }

  /** Deleting a subtree splits the hosts exactly into kept and removed; lifting what was inside removes
      none, keeps their order, and takes the removed segment out of each group they were in. */
  lemma RemovalKeepsHosts(groups: seq<GroupRecord>, hosts: seq<HostRecord>, target: Text, mode: Mode, options: Options)
    requires Respectful(options) && IsNormal(target)
    ensures var r := Removed(groups, hosts, target, mode, options);
            && multiset(HostIds(r.hosts)) + multiset(r.removedHostIds) == multiset(HostIds(hosts))
            && (mode.ReparentDescendants? ==> |r.hosts| == |hosts| && forall k :: 0 <= k < |hosts| ==>
              r.hosts[k].id == hosts[k].id
              && Segments(r.hosts[k].groupName) == Moved(Segments(hosts[k].groupName), Segments(Some(target)), Init(Segments(Some(target)))))
  {
    var r := Removed(groups, hosts, target, mode, options);
    if mode.DeleteSubtree? {
      HostPartsSplitIds(hosts, target);
    } else {
      forall k | 0 <= k < |hosts|
        ensures r.hosts[k].id == hosts[k].id
        ensures Segments(r.hosts[k].groupName) == Moved(Segments(hosts[k].groupName), Segments(Some(target)), Init(Segments(Some(target))))
      {
        HostLifts(hosts[k], target, options);
      }
      assert HostIds(r.hosts) == HostIds(hosts);
    }
  }

  lemma HostLifts(h: HostRecord, target: Text, options: Options)
    requires Respectful(options) && IsNormal(target)
    ensures LiftedHost(h, target, options).id == h.id
    ensures Segments(LiftedHost(h, target, options).groupName)
            == Moved(Segments(h.groupName), Segments(Some(target)), Init(Segments(Some(target))))
  {
    HostInsideIs(h, target);
    if HostInside(h, target) {
      GroupLifts(h.groupName, target);
    }
  }

  lemma GroupLifts(name: Option<Text>, target: Text)
    ensures Segments(StripRemoved(Normalize(name), target)) == Moved(Segments(name), Segments(Some(target)), Init(Segments(Some(target))))
  {
    var p, f := Segments(name), Segments(Some(target));
    NormalizeIsCanonical(name);
    StripLifts(Normalize(name), target);
    SegmentsArePath(name);
    SegmentsArePath(Some(target));
    LiftedIsPath(p, f);
    SegmentsOfJoin(Moved(p, f, Init(f)));
  }

  lemma LiftedIsPath(p: seq<Text>, f: seq<Text>)
    requires IsPath(p) && IsPath(f)
    ensures IsPath(Moved(p, f, Init(f)))
  {
  }
}
