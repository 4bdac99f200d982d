/** Lists of group records, as `packages/shared-core/src/group-mutations.ts` takes them apart and puts them
    together again: records by path, the part inside a path, and the loop that moves that part. */
module GroupLists {
  import opened Words
  import opened JsText
  import opened GroupCollect

  predicate HasPath(list: seq<GroupRecord>, path: Text) {
    exists k :: 0 <= k < |list| && list[k].path == path
  }

  predicate DistinctPaths(list: seq<GroupRecord>) {
    forall i, j :: 0 <= i < j < |list| ==> list[i].path != list[j].path
  }

  function IndexOfPath(list: seq<GroupRecord>, path: Text): (k: Option<nat>)
    ensures k.Some? ==> k.value < |list| && list[k.value].path == path
    ensures k.None? <==> !HasPath(list, path)
    decreases |list|
  {
    if list == [] then None
    else if list[|list| - 1].path == path then Some(|list| - 1)
    else
      var init := list[..|list| - 1];
      assert forall j :: 0 <= j < |init| ==> init[j] == list[j];
      IndexOfPath(init, path)
  }

  /** `map.set(record.path, record)` on a map that keeps the order of insertion: a path that is there
      keeps its place. */
  function Put(list: seq<GroupRecord>, g: GroupRecord): (r: seq<GroupRecord>)
    ensures DistinctPaths(list) ==> DistinctPaths(r)
    ensures !HasPath(list, g.path) ==> r == list + [g]
  {
    var k := IndexOfPath(list, g.path);
    if k.Some? then list[k.value := g] else list + [g]
  }

  /** The map filled with some records. */
  function Filled(list: seq<GroupRecord>): (r: seq<GroupRecord>)
    ensures DistinctPaths(r)
    decreases |list|
  {
    if list == [] then [] else Put(Filled(list[..|list| - 1]), list[|list| - 1])
  }

  lemma FilledSnoc(list: seq<GroupRecord>, g: GroupRecord)
    ensures Filled(list + [g]) == Put(Filled(list), g)
  {
    assert (list + [g])[..|list|] == list;
  }

  lemma HasPathConcat(a: seq<GroupRecord>, b: seq<GroupRecord>, path: Text)
    ensures HasPath(a + b, path) <==> HasPath(a, path) || HasPath(b, path)
  {
    if HasPath(a, path) {
      var k :| 0 <= k < |a| && a[k].path == path;
      assert (a + b)[k] == a[k];
    }
    if HasPath(b, path) {
      var k :| 0 <= k < |b| && b[k].path == path;
      assert (a + b)[|a| + k] == b[k];
    }
  }

  lemma PathsSnoc(list: seq<GroupRecord>, g: GroupRecord)
    ensures DistinctPaths(list + [g]) <==> DistinctPaths(list) && !HasPath(list, g.path)
  {
    var all := list + [g];
    assert all[|list|] == g && forall k :: 0 <= k < |list| ==> all[k] == list[k];
  }

  lemma {:induction false} FilledDistinct(list: seq<GroupRecord>)
    requires DistinctPaths(list)
    ensures Filled(list) == list
    decreases |list|
  {
    if list != [] {
      var init, g := list[..|list| - 1], list[|list| - 1];
      assert list == init + [g];
      PathsSnoc(init, g);
      FilledDistinct(init);
    }
  }

  // ---------------------------------------------------------------- one part of a list

  /** The records whose path passes the test, or those whose path does not. */
  function Part(groups: seq<GroupRecord>, test: Text -> bool, passes: bool): (r: seq<GroupRecord>)
    ensures forall g :: g in r <==> g in groups && test(g.path) == passes
    decreases |groups|
  {
    if groups == [] then []
    else
      var g := groups[|groups| - 1];
      Part(groups[..|groups| - 1], test, passes) + if test(g.path) == passes then [g] else []
  }

  lemma PartSnoc(list: seq<GroupRecord>, g: GroupRecord, test: Text -> bool, passes: bool)
    ensures Part(list + [g], test, passes) == Part(list, test, passes) + if test(g.path) == passes then [g] else []
  {
    assert (list + [g])[..|list|] == list;
  }

  lemma PartHas(groups: seq<GroupRecord>, test: Text -> bool, passes: bool, path: Text)
    ensures HasPath(Part(groups, test, passes), path) ==> HasPath(groups, path)
  {
    var r := Part(groups, test, passes);
    if HasPath(r, path) {
      var k :| 0 <= k < |r| && r[k].path == path;
      assert r[k] in r;
    }
  }

  lemma {:induction false} PartPaths(groups: seq<GroupRecord>, test: Text -> bool, passes: bool)
    requires DistinctPaths(groups)
    ensures DistinctPaths(Part(groups, test, passes))
    decreases |groups|
  {
    if groups != [] {
      var init, g := groups[..|groups| - 1], groups[|groups| - 1];
      assert groups == init + [g];
      PathsSnoc(init, g);
      PartPaths(init, test, passes);
      PartHas(init, test, passes, g.path);
      PathsSnoc(Part(init, test, passes), g);
    }
  }

  lemma {:induction false} PartAll(list: seq<GroupRecord>, test: Text -> bool, passes: bool)
    requires forall k :: 0 <= k < |list| ==> test(list[k].path) == passes
    ensures Part(list, test, passes) == list
    decreases |list|
  {
    if list != [] {
      var init, g := list[..|list| - 1], list[|list| - 1];
      assert list == init + [g];
      PartAll(init, test, passes);
      PartSnoc(init, g, test, passes);
    }
  }

  lemma {:induction false} PartNone(list: seq<GroupRecord>, test: Text -> bool, passes: bool)
    requires forall k :: 0 <= k < |list| ==> test(list[k].path) != passes
    ensures Part(list, test, passes) == []
    decreases |list|
  {
    if list != [] {
      PartNone(list[..|list| - 1], test, passes);
    }
  }

  lemma Regroup(a: seq<GroupRecord>, b: seq<GroupRecord>, c: seq<GroupRecord>)
    ensures a + (b + c) == (a + b) + c
  {
  }

  lemma {:induction false} PartConcat(a: seq<GroupRecord>, b: seq<GroupRecord>, test: Text -> bool, passes: bool)
    ensures Part(a + b, test, passes) == Part(a, test, passes) + Part(b, test, passes)
    decreases |b|
  {
    if b == [] {
      assert a + b == a;
    } else {
      var init, g := b[..|b| - 1], b[|b| - 1];
      assert b == init + [g];
      Regroup(a, init, [g]);
      PartConcat(a, init, test, passes);
      PartSnoc(a + init, g, test, passes);
      PartSnoc(init, g, test, passes);
      Regroup(Part(a, test, passes), Part(init, test, passes), if test(g.path) == passes then [g] else []);
    }
  }

  /** Both parts together have as many paths as the list. */
  lemma PartsDistinct(groups: seq<GroupRecord>, test: Text -> bool)
    requires DistinctPaths(groups)
    ensures DistinctPaths(Part(groups, test, false) + Part(groups, test, true))
  {
    PartPaths(groups, test, false);
    PartPaths(groups, test, true);
    var a, b := Part(groups, test, false), Part(groups, test, true);
    forall i, j | 0 <= i < |a| && 0 <= j < |b| ensures a[i].path != b[j].path {
      assert a[i] in a && b[j] in b;
    }
  }

  lemma ByPathStep(groups: seq<GroupRecord>, index: nat, test: Text -> bool)
    requires index < |groups|
    ensures var before := Filled(Part(groups[..index], test, false));
            Filled(Part(groups[..index + 1], test, false))
            == if test(groups[index].path) then before else Put(before, groups[index])
  {
    var part := Part(groups[..index], test, false);
    assert groups[..index + 1] == groups[..index] + [groups[index]];
    PartSnoc(groups[..index], groups[index], test, false);
    if test(groups[index].path) {
      assert part + [] == part;
    } else {
      FilledSnoc(part, groups[index]);
    }
  }

  /** The map of the records whose path does not pass the test. */
  method ByPath(groups: seq<GroupRecord>, test: Text -> bool) returns (byPath: seq<GroupRecord>)
    ensures byPath == Filled(Part(groups, test, false))
  {
    byPath := [];
    for index := 0 to |groups|
      invariant byPath == Filled(Part(groups[..index], test, false))
    {
      ByPathStep(groups, index, test);
      if !test(groups[index].path) {
        byPath := Put(byPath, groups[index]);
      }
    }
    assert groups[..|groups|] == groups;
  }

  // ---------------------------------------------------------------- moving one part

  datatype Error = NotFound | AlreadyExists | PathInvalid | NameRequired | Unchanged | IntoItself

  /** Where a path goes. */
  type Move = Text -> Option<Text>

  /** A record put at a path. */
  type Place = (GroupRecord, Text) -> GroupRecord

  ghost predicate Places(place: Place) {
    forall g, path :: place(g, path).path == path && place(g, path).id == g.id
  }

  function Target(move: Move, path: Text): Text {
    if move(path).Some? then move(path).value else []
  }

  /** One turn of the loop over the affected groups. */
  function AddOne(before: Result<seq<GroupRecord>, Error>, g: GroupRecord, move: Move, place: Place): Result<seq<GroupRecord>, Error> {
    if before.Err? then before
    else
      var path := Target(move, g.path);
      if path == [] then Err(PathInvalid)
      else if HasPath(before.value, path) then Err(AlreadyExists)
      else Ok(Put(before.value, place(g, path)))
  }

  function AddMoved(list: seq<GroupRecord>, affected: seq<GroupRecord>, move: Move, place: Place): Result<seq<GroupRecord>, Error>
    decreases |affected|
  {
    if affected == [] then Ok(list)
    else AddOne(AddMoved(list, affected[..|affected| - 1], move, place), affected[|affected| - 1], move, place)
  }

  function MovedAll(affected: seq<GroupRecord>, move: Move, place: Place): (r: seq<GroupRecord>)
    ensures |r| == |affected|
    ensures forall k :: 0 <= k < |r| ==> r[k] == place(affected[k], Target(move, affected[k].path))
  {
    seq(|affected|, k requires 0 <= k < |affected| => place(affected[k], Target(move, affected[k].path)))
  }

  /** No path is lost on the way. */
  predicate AllLand(affected: seq<GroupRecord>, move: Move) {
    forall k :: 0 <= k < |affected| ==> Target(move, affected[k].path) != []
  }

  lemma MovedSnoc(init: seq<GroupRecord>, g: GroupRecord, move: Move, place: Place)
    ensures MovedAll(init + [g], move, place) == MovedAll(init, move, place) + [place(g, Target(move, g.path))]
    ensures AllLand(init + [g], move) <==> AllLand(init, move) && Target(move, g.path) != []
  {
    var all := init + [g];
    assert all[|init|] == g && forall k :: 0 <= k < |init| ==> all[k] == init[k];
  }

  /** The loop succeeds exactly when no two records would share a path, and then it has moved each one. */
  lemma {:induction false} AddMovedIs(list: seq<GroupRecord>, affected: seq<GroupRecord>, move: Move, place: Place)
    requires DistinctPaths(list) && Places(place)
    ensures var r := AddMoved(list, affected, move, place);
            var all := list + MovedAll(affected, move, place);
            (r.Ok? <==> AllLand(affected, move) && DistinctPaths(all)) && (r.Ok? ==> r.value == all)
    decreases |affected|
  {
    if affected == [] {
      assert list + MovedAll(affected, move, place) == list;
    } else {
      var init, g := affected[..|affected| - 1], affected[|affected| - 1];
      assert affected == init + [g];
      AddMovedIs(list, init, move, place);
      MovedSnoc(init, g, move, place);
      var before, moved := list + MovedAll(init, move, place), place(g, Target(move, g.path));
      PathsSnoc(before, moved);
      assert list + MovedAll(affected, move, place) == before + [moved];
    }
  }

  lemma AddMovedDistinct(list: seq<GroupRecord>, affected: seq<GroupRecord>, move: Move, place: Place)
    requires DistinctPaths(list) && Places(place) && AddMoved(list, affected, move, place).Ok?
    ensures DistinctPaths(AddMoved(list, affected, move, place).value)
  {
    AddMovedIs(list, affected, move, place);
  }

  /** Two lists hold the same records at the same paths. */
  predicate SamePlaces(a: seq<GroupRecord>, b: seq<GroupRecord>) {
    |a| == |b| && forall k :: 0 <= k < |a| ==> a[k].id == b[k].id && a[k].path == b[k].path
  }

  lemma SamePlacesDistinct(a: seq<GroupRecord>, b: seq<GroupRecord>)
    requires SamePlaces(a, b) && DistinctPaths(b)
    ensures DistinctPaths(a)
  {
  }

  /** The second move takes the path where the first left it, and undoes it. */
  predicate Undone(path: Text, move: Move, there: Text -> bool, back: Move) {
    path != [] && there(Target(move, path)) && Target(back, Target(move, path)) == path
  }

  lemma MovedIsThere(affected: seq<GroupRecord>, move: Move, there: Text -> bool, back: Move, place: Place)
    requires Places(place) && forall k :: 0 <= k < |affected| ==> Undone(affected[k].path, move, there, back)
    ensures var moved := MovedAll(affected, move, place);
            && (forall k :: 0 <= k < |moved| ==> there(moved[k].path))
            && AllLand(moved, back) && SamePlaces(MovedAll(moved, back, place), affected)
  {
    var moved := MovedAll(affected, move, place);
    forall k | 0 <= k < |affected| ensures there(moved[k].path) && Target(back, moved[k].path) == affected[k].path != [] {
      assert Undone(affected[k].path, move, there, back);
    }
  }

  lemma PartsOfBoth(others: seq<GroupRecord>, moved: seq<GroupRecord>, there: Text -> bool)
    requires forall k :: 0 <= k < |others| ==> !there(others[k].path)
    requires forall k :: 0 <= k < |moved| ==> there(moved[k].path)
    ensures Part(others + moved, there, false) == others && Part(others + moved, there, true) == moved
  {
    PartAll(others, there, false);
    PartNone(others, there, true);
    PartAll(moved, there, true);
    PartNone(moved, there, false);
    PartConcat(others, moved, there, false);
    PartConcat(others, moved, there, true);
  }

  lemma AllOf(groups: seq<GroupRecord>, test: Text -> bool, passes: bool)
    ensures var r := Part(groups, test, passes);
            forall k :: 0 <= k < |r| ==> r[k] in groups && test(r[k].path) == passes
  {
    var r := Part(groups, test, passes);
    forall k | 0 <= k < |r| ensures r[k] in groups && test(r[k].path) == passes {
      assert r[k] in r;
    }
  }

  /** The part of a list that was moved and moved back, when nothing else was at the new place. */
  lemma ThereAndBackAgain(groups: seq<GroupRecord>, test: Text -> bool, move: Move, there: Text -> bool, back: Move, place: Place)
    requires DistinctPaths(groups) && Places(place)
    requires forall g :: g in groups && there(g.path) ==> test(g.path)
    requires forall g :: g in groups && test(g.path) ==> Undone(g.path, move, there, back)
    ensures var others, affected := Part(groups, test, false), Part(groups, test, true);
            var moved := MovedAll(affected, move, place);
            var again := MovedAll(moved, back, place);
            && Part(others + moved, there, false) == others && Part(others + moved, there, true) == moved
            && SamePlaces(others + again, others + affected)
            && AllLand(moved, back) && DistinctPaths(others + again)
  {
    var others, affected := Part(groups, test, false), Part(groups, test, true);
    var moved := MovedAll(affected, move, place);
    AllOf(groups, test, false);
    AllOf(groups, test, true);
    MovedIsThere(affected, move, there, back, place);
    PartsOfBoth(others, moved, there);
    PartsDistinct(groups, test);
    SamePlacesDistinct(others + MovedAll(moved, back, place), others + affected);
  }

  // ---------------------------------------------------------------- removing one level

  /** What is kept and what is dropped when a group goes and what was inside it is lifted. */
  datatype Lifted = Lifted(kept: seq<GroupRecord>, removed: seq<Text>)

  function Ids(groups: seq<GroupRecord>): (r: seq<Text>)
    ensures |r| == |groups| && forall k :: 0 <= k < |r| ==> r[k] == groups[k].id
  {
    seq(|groups|, k requires 0 <= k < |groups| => groups[k].id)
  }

  /** One turn of the loop: the removed group itself, and a group whose new place is taken, are dropped. */
  function LiftOne(before: Lifted, g: GroupRecord, root: Text, move: Move, place: Place): Lifted {
    var path := Target(move, g.path);
    if g.path == root || path == [] || HasPath(before.kept, path) then before.(removed := before.removed + [g.id])
    else before.(kept := Put(before.kept, place(g, path)))
  }

  function LiftAll(list: seq<GroupRecord>, affected: seq<GroupRecord>, root: Text, move: Move, place: Place): Lifted
    decreases |affected|
  {
    if affected == [] then Lifted(list, [])
    else LiftOne(LiftAll(list, affected[..|affected| - 1], root, move, place), affected[|affected| - 1], root, move, place)
  }

  method LiftAffected(list: seq<GroupRecord>, affected: seq<GroupRecord>, root: Text, move: Move, place: Place) returns (lifted: Lifted)
    ensures lifted == LiftAll(list, affected, root, move, place)
  {
    lifted := Lifted(list, []);
    for index := 0 to |affected|
      invariant lifted == LiftAll(list, affected[..index], root, move, place)
    {
      assert affected[..index + 1][..index] == affected[..index];
      lifted := LiftOne(lifted, affected[index], root, move, place);
    }
    assert affected[..|affected|] == affected;
  }

  lemma IdsSnoc(list: seq<GroupRecord>, g: GroupRecord)
    ensures Ids(list + [g]) == Ids(list) + [g.id]
  {
  }

  /** No id is lost and none appears: the ids split exactly into kept and removed. No two kept groups share
      a path, those that were there stay, and every group that was lifted has one at its new place. */
  lemma {:induction false} LiftSplitsIds(list: seq<GroupRecord>, affected: seq<GroupRecord>, root: Text, move: Move, place: Place)
    requires DistinctPaths(list) && Places(place)
    ensures var r := LiftAll(list, affected, root, move, place);
            && multiset(Ids(r.kept)) + multiset(r.removed) == multiset(Ids(list)) + multiset(Ids(affected))
            && DistinctPaths(r.kept)
            && list <= r.kept
            && forall g :: g in affected && g.path != root && Target(move, g.path) != [] ==> HasPath(r.kept, Target(move, g.path))
    decreases |affected|
  {
    if affected != [] {
      var init, g := affected[..|affected| - 1], affected[|affected| - 1];
      assert affected == init + [g];
      LiftSplitsIds(list, init, root, move, place);
      LiftOneSplits(LiftAll(list, init, root, move, place), g, root, move, place);
      IdsSnoc(init, g);
    }
  }

  lemma LiftOneSplits(before: Lifted, g: GroupRecord, root: Text, move: Move, place: Place)
    requires DistinctPaths(before.kept) && Places(place)
    ensures var r := LiftOne(before, g, root, move, place);
            && multiset(Ids(r.kept)) + multiset(r.removed) == multiset(Ids(before.kept)) + multiset(before.removed) + multiset{g.id}
            && DistinctPaths(r.kept) && before.kept <= r.kept
            && (forall path :: HasPath(before.kept, path) ==> HasPath(r.kept, path))
            && (g.path != root && Target(move, g.path) != [] ==> HasPath(r.kept, Target(move, g.path)))
  {
    var path := Target(move, g.path);
    if !(g.path == root || path == [] || HasPath(before.kept, path)) {
      var moved := place(g, path);
      IdsSnoc(before.kept, moved);
      PathsSnoc(before.kept, moved);
      assert (before.kept + [moved])[|before.kept|].path == path;
      forall x | HasPath(before.kept, x) ensures HasPath(before.kept + [moved], x) {
        HasPathConcat(before.kept, [moved], x);
      }
    }
  }

  /** The two parts of a list hold its ids between them. */
  lemma {:induction false} PartsSplitIds(groups: seq<GroupRecord>, test: Text -> bool)
    ensures multiset(Ids(Part(groups, test, false))) + multiset(Ids(Part(groups, test, true))) == multiset(Ids(groups))
    decreases |groups|
  {
    if groups != [] {
      var init, g := groups[..|groups| - 1], groups[|groups| - 1];
      assert groups == init + [g];
      PartsSplitIds(init, test);
      IdsSnoc(init, g);
      IdsSnoc(Part(init, test, test(g.path)), g);
      assert Part(init, test, !test(g.path)) + [] == Part(init, test, !test(g.path));
    }
  }
}
