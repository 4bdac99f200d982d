/** The records that a move makes and the records it moves, field by field
    (`materializeImplicitHostGroups` and `mutateGroupPathIn` in `packages/shared-core/src/group-mutations.ts`). */
module GroupRecords {
  import opened Words
  import opened JsText
  import opened GroupPaths
  import opened GroupTree
  import opened GroupCollect
  import opened GroupLists
  import opened GroupMutations
  import opened GroupRemoval
  import opened Selections
  import GroupReorder

  // ---------------------------------------------------------------- implicit groups

  function InPath(path: Text): HostRecord -> bool {
    (h: HostRecord) => HostInside(h, path)
  }

  /** Of the hosts that pass the test, the one at `n` is the first with the least id. */
  ghost predicate FirstLeast(leq: Order, hosts: seq<HostRecord>, test: HostRecord -> bool, n: nat) {
    && n < |hosts| && test(hosts[n])
    && (forall k :: 0 <= k < |hosts| && test(hosts[k]) ==> leq(hosts[n].id, hosts[k].id))
    && (forall k :: 0 <= k < n && test(hosts[k]) ==> hosts[k].id != hosts[n].id)
  }

  /** The anchor of a path: of the hosts inside it, the first one with the least id. */
  ghost predicate IsAnchor(leq: Order, hosts: seq<HostRecord>, path: Text, n: nat) {
    FirstLeast(leq, hosts, InPath(path), n)
  }

  lemma StillLeast(leq: Order, init: seq<HostRecord>, h: HostRecord, test: HostRecord -> bool, n: nat)
    requires FirstLeast(leq, init, test, n) && (test(h) ==> leq(init[n].id, h.id))
    ensures FirstLeast(leq, init + [h], test, n)
  {
    assert forall k :: 0 <= k < |init| ==> (init + [h])[k] == init[k];
  }

  lemma NewLeast(leq: Order, init: seq<HostRecord>, h: HostRecord, test: HostRecord -> bool, n: nat)
    requires GroupReorder.TotalOrder(leq) && FirstLeast(leq, init, test, n) && test(h) && !leq(init[n].id, h.id)
    ensures FirstLeast(leq, init + [h], test, |init|)
  {
    forall k | 0 <= k < |init| && test(init[k]) ensures leq(h.id, init[k].id) && init[k].id != h.id {
      assert leq(init[n].id, init[k].id);
    }
  }

  /** `a` is the anchor chosen from the hosts, the one at `n`, or there is none to choose. */
  ghost predicate Leads(leq: Order, hosts: seq<HostRecord>, test: HostRecord -> bool, a: Option<HostRecord>, n: nat) {
    if a.Some? then FirstLeast(leq, hosts, test, n) && a.value == hosts[n]
    else forall k :: 0 <= k < |hosts| ==> !test(hosts[k])
  }

  function Chosen(leq: Order, before: Option<HostRecord>, h: HostRecord, inside: bool): Option<HostRecord> {
    if !inside || (before.Some? && leq(before.value.id, h.id)) then before else Some(h)
  }

  lemma ChosenLeads(leq: Order, init: seq<HostRecord>, h: HostRecord, test: HostRecord -> bool, before: Option<HostRecord>, n: nat) returns (m: nat)
    requires GroupReorder.TotalOrder(leq) && Leads(leq, init, test, before, n)
    ensures Leads(leq, init + [h], test, Chosen(leq, before, h, test(h)), m)
  {
    m := n;
    if before.None? {
      assert forall k :: 0 <= k < |init| ==> (init + [h])[k] == init[k];
      m := |init|;
    } else if !test(h) || leq(before.value.id, h.id) {
      StillLeast(leq, init, h, test, n);
    } else {
      NewLeast(leq, init, h, test, n);
      m := |init|;
    }
  }

  lemma AnchorSnoc(leq: Order, init: seq<HostRecord>, h: HostRecord, path: Text)
    ensures Anchor(leq, init + [h], path) == Chosen(leq, Anchor(leq, init, path), h, InPath(path)(h))
  {
    assert (init + [h])[..|init|] == init;
  }

  lemma {:induction false} AnchorLeads(leq: Order, hosts: seq<HostRecord>, path: Text) returns (n: nat)
    requires GroupReorder.TotalOrder(leq)
    ensures Leads(leq, hosts, InPath(path), Anchor(leq, hosts, path), n)
    decreases |hosts|
  {
    n := 0;
    if hosts != [] {
      var init, h := hosts[..|hosts| - 1], hosts[|hosts| - 1];
      assert hosts == init + [h];
      n := AnchorLeads(leq, init, path);
      n := ChosenLeads(leq, init, h, InPath(path), Anchor(leq, init, path), n);
      AnchorSnoc(leq, init, h, path);
    }
  }

  lemma AnchorIsLeast(leq: Order, hosts: seq<HostRecord>, path: Text) returns (n: nat)
    requires GroupReorder.TotalOrder(leq)
    ensures Anchor(leq, hosts, path).Some? ==> IsAnchor(leq, hosts, path, n) && Anchor(leq, hosts, path).value == hosts[n]
    ensures Anchor(leq, hosts, path).None? ==> forall k :: 0 <= k < |hosts| ==> !InPath(path)(hosts[k])
  {
    n := AnchorLeads(leq, hosts, path);
  }

  /** A path that only hosts name: it has no record, is inside the target, and some host is inside it. */
  function OnlyHosts(groups: seq<GroupRecord>, hosts: seq<HostRecord>, target: Text): Text -> bool {
    (path: Text) => !HasPath(groups, path) && IsWithin(Some(path), Some(target)) && exists k :: 0 <= k < |hosts| && HostInside(hosts[k], path)
  }

  /** The record made for such a path: its name and parent are those of the path, its times those of the
      anchor, and its id comes from the anchor's id and the path. */
  ghost function MadeFor(leq: Order, idOf: (Text, Text) -> Text, hosts: seq<HostRecord>): (Text, GroupRecord) -> bool {
    (path: Text, g: GroupRecord) =>
      && Segments(Some(path)) != []
      && g.path == path && g.name == Segments(Some(path))[|Segments(Some(path))| - 1] && g.parentPath == AsPath(Init(Segments(Some(path))))
      && g.sortRank == None
      && exists n: nat :: IsAnchor(leq, hosts, path, n) && g.id == idOf(hosts[n].id, path) && g.createdAt == hosts[n].createdAt && g.updatedAt == hosts[n].updatedAt
  }

  lemma ImplicitRecord(leq: Order, idOf: (Text, Text) -> Text, hosts: seq<HostRecord>, path: Text)
    requires GroupReorder.TotalOrder(leq) && IsNormal(path) && Anchor(leq, hosts, path).Some?
    ensures MadeFor(leq, idOf, hosts)(path, Implicit(idOf, Anchor(leq, hosts, path).value, path))
  {
    var n := AnchorIsLeast(leq, hosts, path);
    NormalJoin(path);
    LabelIsLast(Segments(Some(path)));
    ParentIsInit(Some(path));
    assert IsAnchor(leq, hosts, path, n);
  }

  lemma NeededMeans(leq: Order, groups: seq<GroupRecord>, hosts: seq<HostRecord>, target: Text, path: Text)
    ensures Needed(leq, groups, hosts, Some(target), path) <==> OnlyHosts(groups, hosts, target)(path)
  {
    if Anchor(leq, hosts, path).Some? {
      var k :| 0 <= k < |hosts| && hosts[k] == Anchor(leq, hosts, path).value;
      assert HostInside(hosts[k], path);
    }
  }

  /** The records added are made, one for each and in the order of the collected paths, for exactly the paths
      that only hosts name. */
  lemma {:induction false} AdditionsExactly(leq: Order, idOf: (Text, Text) -> Text, groups: seq<GroupRecord>, hosts: seq<HostRecord>, target: Text,
                                            collected: seq<Text>)
    requires GroupReorder.TotalOrder(leq) && forall k :: 0 <= k < |collected| ==> IsNormal(collected[k])
    ensures Selects(collected, OnlyHosts(groups, hosts, target), Additions(leq, idOf, groups, hosts, Some(target), collected), MadeFor(leq, idOf, hosts))
    decreases |collected|
  {
    if collected == [] {
      SelectsNothing(OnlyHosts(groups, hosts, target), MadeFor(leq, idOf, hosts));
    } else {
      var init, x := collected[..|collected| - 1], collected[|collected| - 1];
      assert collected == init + [x];
      assert forall k :: 0 <= k < |init| ==> init[k] == collected[k];
      AdditionsExactly(leq, idOf, groups, hosts, target, init);
      NextAddition(leq, idOf, groups, hosts, target, init, x);
    }
  }

  lemma NextAddition(leq: Order, idOf: (Text, Text) -> Text, groups: seq<GroupRecord>, hosts: seq<HostRecord>, target: Text, init: seq<Text>, x: Text)
    requires GroupReorder.TotalOrder(leq) && IsNormal(x)
    requires Selects(init, OnlyHosts(groups, hosts, target), Additions(leq, idOf, groups, hosts, Some(target), init), MadeFor(leq, idOf, hosts))
    ensures Selects(init + [x], OnlyHosts(groups, hosts, target), Additions(leq, idOf, groups, hosts, Some(target), init + [x]), MadeFor(leq, idOf, hosts))
  {
    var wanted, made := OnlyHosts(groups, hosts, target), MadeFor(leq, idOf, hosts);
    var before := Additions(leq, idOf, groups, hosts, Some(target), init);
    AdditionsSnoc(leq, idOf, groups, hosts, Some(target), init, x);
    NeededMeans(leq, groups, hosts, target, x);
    if wanted(x) {
      ImplicitRecord(leq, idOf, hosts, x);
      SelectsTake(init, x, wanted, before, Implicit(idOf, Anchor(leq, hosts, x).value, x), made);
    } else {
      SelectsSkip(init, x, wanted, before, made);
    }
  }

  // ---------------------------------------------------------------- moved records

  /** A moved record: the new place's segments instead of the target's, the name and parent of the new path,
      the rest as it was. */
  function MovedRecord(target: Text, next: Text, timestamp: Text): (GroupRecord, GroupRecord) -> bool {
    (g: GroupRecord, r: GroupRecord) =>
      && Inside(Some(g.path), target)
      && var q := Segments(Some(next)) + Segments(Some(g.path))[|Segments(Some(target))|..];
         && q != [] && r.path == Join(q) && r.name == q[|q| - 1] && r.parentPath == AsPath(Init(q))
         && r.id == g.id && r.sortRank == g.sortRank && r.createdAt == g.createdAt && r.updatedAt == timestamp
  }

  lemma MovedPath(path: Text, target: Text, next: Text)
    requires IsNormal(path) && IsNormal(target) && IsNormal(next) && Inside(Some(path), target)
    ensures var q := Segments(Some(next)) + Segments(Some(path))[|Segments(Some(target))|..];
            IsPath(q) && q != [] && Target(MoveTo(target, next), path) == Join(q)
  {
    var p, f, t := Segments(Some(path)), Segments(Some(target)), Segments(Some(next));
    NormalJoin(path);
    NormalJoin(target);
    NormalJoin(next);
    MovedSegments(path, Join(t + p[|f|..]), target, next, p, f, t);
  }

  lemma MovedRecordIs(g: GroupRecord, target: Text, next: Text, timestamp: Text)
    requires IsNormal(g.path) && IsNormal(target) && IsNormal(next) && Inside(Some(g.path), target)
    ensures MovedRecord(target, next, timestamp)(g, Relocated(g, Target(MoveTo(target, next), g.path), timestamp))
  {
    MovedPath(g.path, target, next);
    RelocatedRecord(g, Segments(Some(next)) + Segments(Some(g.path))[|Segments(Some(target))|..], timestamp);
  }

  lemma {:induction false} MovedSelects(groups: seq<GroupRecord>, target: Text, next: Text, timestamp: Text)
    requires NormalPaths(groups) && IsNormal(target) && IsNormal(next)
    ensures Selects(groups, GroupInside(target, true), MovedAll(Part(groups, InsideOf(target), true), MoveTo(target, next), PlaceAt(timestamp)),
                    MovedRecord(target, next, timestamp))
    decreases |groups|
  {
    var wanted, made := GroupInside(target, true), MovedRecord(target, next, timestamp);
    var move, place := MoveTo(target, next), PlaceAt(timestamp);
    if groups == [] {
      SelectsNothing(wanted, made);
    } else {
      var init, g := groups[..|groups| - 1], groups[|groups| - 1];
      assert groups == init + [g];
      MovedSelects(init, target, next, timestamp);
      PartSnoc(init, g, InsideOf(target), true);
      InsideIs(g, target);
      var part := Part(init, InsideOf(target), true);
      if wanted(g) {
        MovedRecordIs(g, target, next, timestamp);
        MovedSnoc(part, g, move, place);
        SelectsTake(init, g, wanted, MovedAll(part, move, place), Relocated(g, Target(move, g.path), timestamp), made);
      } else {
        assert part + [] == part;
        SelectsSkip(init, g, wanted, MovedAll(part, move, place), made);
      }
    }
  }

  /** A move that succeeds yields, in their order, the records outside the target as they were and behind
      them, in their order, those inside it, moved. A host outside is as it was; of one inside, id and place
      are kept and the group is moved. */
  lemma MovedExactly(groups: seq<GroupRecord>, hosts: seq<HostRecord>, target: Text, next: Text, options: Options)
    returns (others: seq<GroupRecord>, moved: seq<GroupRecord>)
    requires Respectful(options) && DistinctPaths(groups) && NormalPaths(groups) && IsNormal(target) && IsNormal(next)
    requires Mutated(groups, hosts, target, next, options).Ok?
    ensures var m := Mutated(groups, hosts, target, next, options).value;
            && m.groups == others + moved
            && Selects(groups, GroupInside(target, false), others, AsItWas())
            && Selects(groups, GroupInside(target, true), moved, MovedRecord(target, next, options.timestamp))
            && |m.hosts| == |hosts|
            && forall k :: 0 <= k < |hosts| ==>
                 if Inside(hosts[k].groupName, target) then
                   m.hosts[k].id == hosts[k].id
                   && Segments(m.hosts[k].groupName) == Segments(Some(next)) + Segments(hosts[k].groupName)[|Segments(Some(target))|..]
                 else m.hosts[k] == hosts[k]
  {
    others := Part(groups, InsideOf(target), false);
    moved := MovedAll(Part(groups, InsideOf(target), true), MoveTo(target, next), PlaceAt(options.timestamp));
    PartSelects(groups, target, false);
    MovedSelects(groups, target, next, options.timestamp);
    MoveYields(groups, hosts, target, next, options);
    HostsMove(hosts, target, next, options);
    forall k | 0 <= k < |hosts| ensures HostInside(hosts[k], target) <==> Inside(hosts[k].groupName, target) {
      HostInsideIs(hosts[k], target);
    }
    NormalJoin(target);
  }
}
