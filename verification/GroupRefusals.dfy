/** Exactly when moving, renaming and removing a group is refused, and with which error, said of segments
    (`packages/shared-core/src/group-mutations.ts`). */
module GroupRefusals {
  import opened Words
  import opened JsText
  import opened GroupPaths
  import opened GroupCollect
  import opened GroupLists
  import opened GroupMutations
  import opened GroupRemoval

  // ---------------------------------------------------------------- planning

  lemma NormalizedIs(path: Option<Text>)
    ensures IsPath(Segments(path))
    ensures Normalize(path) == if Segments(path) == [] then None else Some(Join(Segments(path)))
  {
    NormalizeIsCanonical(path);
    SegmentsArePath(path);
    JoinNonEmpty(Segments(path));
  }

  /** A move is planned, or refused, by the segments of the two paths alone, however they are written. */
  lemma MovePlanIs(targetPath: Text, parentPath: Option<Text>)
    ensures var f, p := Segments(Some(targetPath)), Segments(parentPath);
            PlanMove(targetPath, parentPath)
            == if f == [] then Err(PathInvalid)
               else if f <= p then Err(IntoItself)
               else if p + [f[|f| - 1]] == f then Err(Unchanged)
               else Ok((Join(f), Join(p + [f[|f| - 1]])))
  {
    var f, p := Segments(Some(targetPath)), Segments(parentPath);
    NormalizedIs(Some(targetPath));
    NormalizedIs(parentPath);
    if f != [] {
      var last := f[|f| - 1];
      assert IsSegment(last);
      LabelIsLast(f);
      UnderPath(p, last);
      NewPath(p, last);
      if Join(p + [last]) == Join(f) {
        JoinInjective(p + [last], f);
      }
      InsideItself(p, f);
    }
  }

  lemma NewPath(p: seq<Text>, last: Text)
    requires IsPath(p) && IsSegment(last)
    ensures IsPath(p + [last])
  {
  }

  lemma InsideItself(p: seq<Text>, f: seq<Text>)
    requires IsPath(p) && IsPath(f) && f != []
    ensures AsPath(p).Some? && IsWithin(AsPath(p), AsPath(f)) <==> f <= p
  {
    JoinNonEmpty(p);
    WithinIsPrefix(p, f);
  }

  /** So is a rename. */
  lemma RenamePlanIs(targetPath: Text, name: Text)
    ensures var f, n := Segments(Some(targetPath)), Segments(Some(Trim(name)));
            PlanRename(targetPath, name)
            == if f == [] then Err(PathInvalid)
               else if Trim(name) == [] then Err(NameRequired)
               else if Init(f) + n == [] then Err(PathInvalid)
               else if Init(f) + n == f then Err(Unchanged)
               else Ok((Join(f), Join(Init(f) + n)))
  {
    var f, n := Segments(Some(targetPath)), Segments(Some(Trim(name)));
    NormalizedIs(Some(targetPath));
    if f != [] {
      ParentOfPath(f);
      assert IsPath(Init(f));
      SegmentsUnder(Init(f), Trim(name));
      NormalizedIs(Some(Under(AsPath(Init(f)), Trim(name))));
      if Init(f) + n != [] && Join(Init(f) + n) == Join(f) {
        JoinInjective(Init(f) + n, f);
      }
    }
  }

  // ---------------------------------------------------------------- whether there is anything

  /** There is something to move or to remove: a record or a host inside the group, or the caller says so. */
  predicate Something(groups: seq<GroupRecord>, hosts: seq<HostRecord>, target: Text, options: Options) {
    || (exists k :: 0 <= k < |groups| && Inside(Some(groups[k].path), target))
    || (exists k :: 0 <= k < |hosts| && Inside(hosts[k].groupName, target))
    || options.pathAlsoOccupied
  }

  lemma OccupiedMeans(groups: seq<GroupRecord>, hosts: seq<HostRecord>, target: Text, options: Options)
    requires NormalPaths(groups) && IsNormal(target)
    ensures Occupied(groups, hosts, target, options) <==> Something(groups, hosts, target, options)
  {
    SomeInside(hosts, target);
    forall k | 0 <= k < |hosts| ensures HostInside(hosts[k], target) <==> Inside(hosts[k].groupName, target) {
      HostInsideIs(hosts[k], target);
    }
    SomeGroupInside(groups, target);
  }

  lemma SomeGroupInside(groups: seq<GroupRecord>, target: Text)
    requires NormalPaths(groups) && IsNormal(target)
    ensures Part(groups, InsideOf(target), true) != [] <==> exists k :: 0 <= k < |groups| && Inside(Some(groups[k].path), target)
  {
    var part := Part(groups, InsideOf(target), true);
    forall k | 0 <= k < |groups| ensures groups[k] in part <==> Inside(Some(groups[k].path), target) {
      InsideIs(groups[k], target);
    }
    if part != [] {
      assert part[0] in part;
      var k :| 0 <= k < |groups| && groups[k] == part[0];
    }
  }

  /** Removing is refused exactly when the path has no segment, or when there is nothing to remove. */
  lemma RemovalRefusedIff(groups: seq<GroupRecord>, hosts: seq<HostRecord>, targetPath: Text, options: Options)
    requires NormalPaths(groups)
    ensures var target := Normalize(Some(targetPath));
            && (target.None? <==> Segments(Some(targetPath)) == [])
            && (target.Some? ==> (Occupied(groups, hosts, target.value, options) <==> Something(groups, hosts, target.value, options)))
  {
    NormalizedIs(Some(targetPath));
    AcceptedIsNormal(targetPath);
    if Normalize(Some(targetPath)).Some? {
      OccupiedMeans(groups, hosts, Normalize(Some(targetPath)).value, options);
    }
  }

  // ---------------------------------------------------------------- whether there is room

  /** Where the record goes. */
  function Destination(g: GroupRecord, target: Text, next: Text): seq<Text>
    requires Inside(Some(g.path), target)
  {
    Segments(Some(next)) + Segments(Some(g.path))[|Segments(Some(target))|..]
  }

  /** No record outside the group stands at the new path, or where one inside would go. */
  predicate Room(groups: seq<GroupRecord>, target: Text, next: Text) {
    && !StandsOutside(groups, target, Segments(Some(next)))
    && forall k :: 0 <= k < |groups| && Inside(Some(groups[k].path), target) ==> !StandsOutside(groups, target, Destination(groups[k], target, next))
  }

  lemma DestinationIs(g: GroupRecord, target: Text, next: Text)
    requires IsNormal(g.path) && IsNormal(target) && IsNormal(next) && Inside(Some(g.path), target)
    ensures IsPath(Destination(g, target, next)) && Target(MoveTo(target, next), g.path) == Join(Destination(g, target, next)) != []
  {
    var p, f, t := Segments(Some(g.path)), Segments(Some(target)), Segments(Some(next));
    NormalJoin(g.path);
    NormalJoin(target);
    NormalJoin(next);
    MovedSegments(g.path, Join(t + p[|f|..]), target, next, p, f, t);
    assert IsPath(t + p[|f|..]);
    JoinNonEmpty(t + p[|f|..]);
  }

  lemma ApartStayApart(a: GroupRecord, b: GroupRecord, target: Text, next: Text)
    requires IsNormal(a.path) && IsNormal(b.path) && IsNormal(target) && IsNormal(next) && a.path != b.path
    requires Inside(Some(a.path), target) && Inside(Some(b.path), target)
    ensures Target(MoveTo(target, next), a.path) != Target(MoveTo(target, next), b.path)
  {
    var p, q, f, t := Segments(Some(a.path)), Segments(Some(b.path)), Segments(Some(target)), Segments(Some(next));
    DestinationIs(a, target, next);
    DestinationIs(b, target, next);
    NormalJoin(a.path);
    NormalJoin(b.path);
    if Join(Destination(a, target, next)) == Join(Destination(b, target, next)) {
      JoinInjective(Destination(a, target, next), Destination(b, target, next));
      SameRest(p, q, f, t);
    }
  }

  lemma SameRest(p: seq<Text>, q: seq<Text>, f: seq<Text>, t: seq<Text>)
    requires f <= p && f <= q && t + p[|f|..] == t + q[|f|..]
    ensures p == q
  {
    SameTail(t, p[|f|..], q[|f|..]);
    assert p == f + p[|f|..] && q == f + q[|f|..];
  }

  lemma MovedApart(affected: seq<GroupRecord>, target: Text, next: Text, place: Place)
    requires DistinctPaths(affected) && NormalPaths(affected) && IsNormal(target) && IsNormal(next) && Places(place)
    requires forall k :: 0 <= k < |affected| ==> Inside(Some(affected[k].path), target)
    ensures AllLand(affected, MoveTo(target, next)) && DistinctPaths(MovedAll(affected, MoveTo(target, next), place))
  {
    forall k | 0 <= k < |affected| ensures Target(MoveTo(target, next), affected[k].path) != [] {
      DestinationIs(affected[k], target, next);
    }
    forall i, j | 0 <= i < j < |affected|
      ensures Target(MoveTo(target, next), affected[i].path) != Target(MoveTo(target, next), affected[j].path)
    {
      ApartStayApart(affected[i], affected[j], target, next);
    }
  }

  lemma DistinctConcat(a: seq<GroupRecord>, b: seq<GroupRecord>)
    requires DistinctPaths(a) && DistinctPaths(b)
    ensures DistinctPaths(a + b) <==> forall j :: 0 <= j < |b| ==> !HasPath(a, b[j].path)
  {
    var all := a + b;
    if DistinctPaths(all) {
      forall i, j | 0 <= i < |a| && 0 <= j < |b| ensures a[i].path != b[j].path {
        assert all[i] == a[i] && all[|a| + j] == b[j];
      }
    }
  }

  /** A move is refused exactly when there is nothing to move, or when there is no room at the new path; it is
      never refused for a path that becomes invalid on the way. */
  lemma MoveRefusedIff(groups: seq<GroupRecord>, hosts: seq<HostRecord>, target: Text, next: Text, options: Options)
    requires DistinctPaths(groups) && NormalPaths(groups) && IsNormal(target) && IsNormal(next)
    ensures var r := Mutated(groups, hosts, target, next, options);
            if !Something(groups, hosts, target, options) then r == Err(NotFound)
            else if !Room(groups, target, next) then r == Err(AlreadyExists)
            else r.Ok?
  {
    OccupiedMeans(groups, hosts, target, options);
    MoveYields(groups, hosts, target, next, options);
    var others, affected := Part(groups, InsideOf(target), false), Part(groups, InsideOf(target), true);
    var move, place := MoveTo(target, next), PlaceAt(options.timestamp);
    PartPaths(groups, InsideOf(target), false);
    PartPaths(groups, InsideOf(target), true);
    FilledDistinct(others);
    AffectedAre(groups, target);
    MovedApart(affected, target, next, place);
    DistinctConcat(others, MovedAll(affected, move, place));
    RoomMeans(groups, target, next, place);
    NeverInvalid(others, affected, move, place);
  }

  lemma AffectedAre(groups: seq<GroupRecord>, target: Text)
    requires NormalPaths(groups) && IsNormal(target)
    ensures var affected := Part(groups, InsideOf(target), true);
            NormalPaths(affected) && forall k :: 0 <= k < |affected| ==> affected[k] in groups && Inside(Some(affected[k].path), target)
  {
    var affected := Part(groups, InsideOf(target), true);
    forall k | 0 <= k < |affected| ensures affected[k] in groups && IsNormal(affected[k].path) && Inside(Some(affected[k].path), target) {
      assert affected[k] in affected;
      InsideIs(affected[k], target);
    }
  }

  lemma RoomMeans(groups: seq<GroupRecord>, target: Text, next: Text, place: Place)
    requires NormalPaths(groups) && IsNormal(target) && IsNormal(next) && Places(place)
    ensures var others, affected := Part(groups, InsideOf(target), false), Part(groups, InsideOf(target), true);
            var moved := MovedAll(affected, MoveTo(target, next), place);
            Room(groups, target, next) <==> !HasPath(others, next) && forall j :: 0 <= j < |moved| ==> !HasPath(others, moved[j].path)
  {
    var others, affected := Part(groups, InsideOf(target), false), Part(groups, InsideOf(target), true);
    var moved := MovedAll(affected, MoveTo(target, next), place);
    NormalJoin(next);
    PathTaken(groups, target, Segments(Some(next)));
    AffectedAre(groups, target);
    forall g | g in groups && Inside(Some(g.path), target)
      ensures StandsOutside(groups, target, Destination(g, target, next)) <==> HasPath(others, Target(MoveTo(target, next), g.path))
    {
      DestinationIs(g, target, next);
      PathTaken(groups, target, Destination(g, target, next));
    }
    forall k | 0 <= k < |groups| && Inside(Some(groups[k].path), target) ensures groups[k] in affected {
      InsideIs(groups[k], target);
    }
    EachMoved(groups, affected, others, target, MoveTo(target, next), place);
  }

  lemma EachMoved(groups: seq<GroupRecord>, affected: seq<GroupRecord>, others: seq<GroupRecord>, target: Text, move: Move, place: Place)
    requires Places(place)
    requires forall k :: 0 <= k < |groups| && Inside(Some(groups[k].path), target) ==> groups[k] in affected
    requires forall k :: 0 <= k < |affected| ==> affected[k] in groups && Inside(Some(affected[k].path), target)
    ensures var moved := MovedAll(affected, move, place);
            (forall j :: 0 <= j < |moved| ==> !HasPath(others, moved[j].path))
            <==> forall k :: 0 <= k < |groups| && Inside(Some(groups[k].path), target) ==> !HasPath(others, Target(move, groups[k].path))
  {
    var moved := MovedAll(affected, move, place);
    if forall j :: 0 <= j < |moved| ==> !HasPath(others, moved[j].path) {
      forall k | 0 <= k < |groups| && Inside(Some(groups[k].path), target) ensures !HasPath(others, Target(move, groups[k].path)) {
        var j :| 0 <= j < |affected| && affected[j] == groups[k];
        assert moved[j].path == Target(move, groups[k].path);
      }
    }
    if forall k :: 0 <= k < |groups| && Inside(Some(groups[k].path), target) ==> !HasPath(others, Target(move, groups[k].path)) {
      forall j | 0 <= j < |moved| ensures !HasPath(others, moved[j].path) {
        assert affected[j] in groups;
        var k :| 0 <= k < |groups| && groups[k] == affected[j];
      }
    }
  }

  /** When every record lands somewhere, the loop can only be refused for a path that is taken. */
  lemma {:induction false} NeverInvalid(list: seq<GroupRecord>, affected: seq<GroupRecord>, move: Move, place: Place)
    requires AllLand(affected, move)
    ensures var r := AddMoved(list, affected, move, place); r.Err? ==> r.error == AlreadyExists
    decreases |affected|
  {
    if affected != [] {
      var init := affected[..|affected| - 1];
      assert forall k :: 0 <= k < |init| ==> init[k] == affected[k];
      NeverInvalid(list, init, move, place);
      assert Target(move, affected[|affected| - 1].path) != [];
    }
  }
}
