/** Group paths (`packages/shared-core/src/group-paths.ts`): the operations on slash-separated strings, and
    what each of them means on the list of a path's segments. */
module GroupPaths {
  import opened Words
  import opened JsText

  predicate NoSlash(s: Text) {
    forall k :: 0 <= k < |s| ==> s[k] != SLASH
  }

  /** Where the first slash is, or the length. */
  function FirstSlash(s: Text): (k: nat)
    ensures k <= |s|
    ensures forall i :: 0 <= i < k ==> s[i] != SLASH
    ensures k < |s| ==> s[k] == SLASH
  {
    if s == [] || s[0] == SLASH then 0 else 1 + FirstSlash(s[1..])
  }

  /** `s.split('/')`. */
  function Split(s: Text): (r: seq<Text>)
    ensures |r| >= 1
    decreases |s|
  {
    var k := FirstSlash(s);
    if k == |s| then [s] else [s[..k]] + Split(s[k + 1..])
  }

  /** `map(trim)` and `filter(Boolean)`. */
  function Kept(parts: seq<Text>): seq<Text> {
    if parts == [] then []
    else
      var head := Trim(parts[0]);
      (if head == [] then [] else [head]) + Kept(parts[1..])
  }

  /** `join('/')`. */
  function Join(parts: seq<Text>): Text {
    if parts == [] then []
    else if |parts| == 1 then parts[0]
    else parts[0] + [SLASH] + Join(parts[1..])
  }

  function OrEmpty(path: Option<Text>): Text {
    if path.Some? then path.value else []
  }

  function OrNull(path: Text): Option<Text> {
    if path == [] then None else Some(path)
  }

  function Normalize(path: Option<Text>): Option<Text> {
    OrNull(Join(Kept(Split(OrEmpty(path)))))
  }

  function LastSlash(s: Text): (k: int)
    ensures -1 <= k < |s|
    decreases |s|
  {
    if s == [] then -1 else if s[|s| - 1] == SLASH then |s| - 1 else LastSlash(s[..|s| - 1])
  }

  function Parent(path: Option<Text>): Option<Text> {
    var n := Normalize(path);
    if n.None? || LastSlash(n.value) < 0 then None else Some(n.value[..LastSlash(n.value)])
  }

  function Label(path: Text): Text {
    var parts := Split(path);
    parts[|parts| - 1]
  }

  predicate StartsWith(s: Text, prefix: Text) {
    |prefix| <= |s| && s[..|prefix|] == prefix
  }

  predicate IsWithin(path: Option<Text>, current: Option<Text>) {
    if OrEmpty(current) == [] then true
    else if OrEmpty(path) == [] then false
    else path == current || StartsWith(path.value, current.value + [SLASH])
  }

  /** `slice(k)`, which is empty from the end of the string on. */
  function Slice(s: Text, k: nat): Text {
    if k <= |s| then s[k..] else []
  }

  /** `${to}/${suffix}`, or the suffix alone at the root. */
  function Under(to: Option<Text>, suffix: Text): Text {
    if to.Some? then to.value + [SLASH] + suffix else suffix
  }

  /** The suffix of a path below `base`, hung under `to`. */
  function Hung(source: Text, base: Text, to: Option<Text>): Option<Text> {
    Normalize(Some(Under(to, Slice(source, |base| + 1))))
  }

  /** What rebasing and removing share: a path inside `base` is hung under `to`, any other is left. */
  function Lifted(s: Option<Text>, base: Option<Text>, to: Option<Text>): Option<Text> {
    if s.None? || base.None? || !IsWithin(s, base) then s
    else if s == base then to
    else Hung(s.value, base.value, to)
  }

  function Rebase(source: Option<Text>, from: Text, to: Option<Text>): Option<Text> {
    Lifted(Normalize(source), Normalize(Some(from)), Normalize(to))
  }

  function StripRemoved(path: Option<Text>, removed: Text): Option<Text> {
    var r := Normalize(Some(removed));
    Lifted(Normalize(path), r, Parent(r))
  }

  // ---------------------------------------------------------------- segments

  /** A segment of a normalized path. */
  predicate IsSegment(x: Text) {
    x != [] && NoSlash(x) && !IsSpace(x[0]) && !IsSpace(x[|x| - 1])
  }

  predicate IsPath(p: seq<Text>) {
    forall k :: 0 <= k < |p| ==> IsSegment(p[k])
  }

  /** The segments of a path, written in any form. */
  function Segments(path: Option<Text>): seq<Text> {
    Kept(Split(OrEmpty(path)))
  }

  /** The string form of a list of segments; the root is `null`. */
  function AsPath(p: seq<Text>): Option<Text> {
    OrNull(Join(p))
  }

  lemma FirstSlashIs(s: Text, k: nat)
    requires k <= |s| && (k < |s| ==> s[k] == SLASH)
    requires forall i :: 0 <= i < k ==> s[i] != SLASH
    ensures FirstSlash(s) == k
  {
  }

  lemma DropFirst(x: Text, y: Text, k: nat)
    requires k <= |x|
    ensures (x + [SLASH] + y)[k..] == x[k..] + [SLASH] + y
  {
  }

  lemma {:induction false} SplitConcat(x: Text, y: Text)
    ensures Split(x + [SLASH] + y) == Split(x) + Split(y)
    decreases |x|
  {
    var s, k := x + [SLASH] + y, FirstSlash(x);
    FirstSlashIs(s, k);
    if k == |x| {
      assert s[..k] == x && s[k + 1..] == y;
    } else {
      SplitConcat(x[k + 1..], y);
      assert s[..k] == x[..k];
      DropFirst(x, y, k + 1);
    }
  }

  lemma SplitWhole(x: Text)
    requires NoSlash(x)
    ensures Split(x) == [x]
  {
    FirstSlashIs(x, |x|);
  }

  lemma {:induction false} SplitParts(s: Text)
    ensures forall k :: 0 <= k < |Split(s)| ==> NoSlash(Split(s)[k])
    decreases |s|
  {
    if FirstSlash(s) < |s| {
      SplitParts(s[FirstSlash(s) + 1..]);
    }
  }

  lemma {:induction false} TrimKeeps(s: Text)
    ensures Trim(s) != [] ==> !IsSpace(Trim(s)[0]) && !IsSpace(Trim(s)[|Trim(s)| - 1])
    ensures NoSlash(s) ==> NoSlash(Trim(s))
    decreases |s|
  {
    if s != [] && IsSpace(s[0]) {
      TrimKeeps(s[1..]);
    } else if s != [] && IsSpace(s[|s| - 1]) {
      TrimKeeps(s[..|s| - 1]);
    }
  }

  lemma {:induction false} KeptIsPath(parts: seq<Text>)
    requires forall k :: 0 <= k < |parts| ==> NoSlash(parts[k])
    ensures IsPath(Kept(parts))
  {
    if parts != [] {
      KeptIsPath(parts[1..]);
      TrimKeeps(parts[0]);
    }
  }

  lemma SegmentsArePath(path: Option<Text>)
    ensures IsPath(Segments(path))
  {
    SplitParts(OrEmpty(path));
    KeptIsPath(Split(OrEmpty(path)));
  }

  lemma {:induction false} KeptAll(p: seq<Text>)
    requires IsPath(p)
    ensures Kept(p) == p
  {
    if p != [] {
      KeptAll(p[1..]);
      assert IsSegment(p[0]);
    }
  }

  lemma {:induction false} KeptConcat(a: seq<Text>, b: seq<Text>)
    ensures Kept(a + b) == Kept(a) + Kept(b)
  {
    if a == [] {
      assert a + b == b;
    } else {
      KeptConcat(a[1..], b);
      assert (a + b)[1..] == a[1..] + b;
      KeptJoin(Trim(a[0]), Kept(a[1..]), Kept(b));
    }
  }

  lemma KeptJoin(head: Text, mine: seq<Text>, others: seq<Text>)
    ensures var x := if head == [] then [] else [head]; x + (mine + others) == (x + mine) + others
  {
  }

  /** The segments of a text, whatever it is: a slash parts it, and a part without one is a segment without
      the spaces around it, or none if that is nothing. */
  lemma SegmentsMean(x: Text, y: Text)
    ensures Segments(Some(x + [SLASH] + y)) == Segments(Some(x)) + Segments(Some(y))
    ensures NoSlash(x) ==> Segments(Some(x)) == if Trim(x) == [] then [] else [Trim(x)]
  {
    SplitConcat(x, y);
    KeptConcat(Split(x), Split(y));
    if NoSlash(x) {
      SplitWhole(x);
      assert [x][1..] == [] && Kept([x]) == (if Trim(x) == [] then [] else [Trim(x)]) + Kept([]);
    }
  }

  lemma SplitStep(head: Text, tail: Text, parts: seq<Text>)
    requires NoSlash(head) && Split(tail) == parts
    ensures Split(head + [SLASH] + tail) == [head] + parts
  {
    SplitWhole(head);
    SplitConcat(head, tail);
  }

  lemma {:induction false} SplitJoin(p: seq<Text>)
    requires IsPath(p) && p != []
    ensures Split(Join(p)) == p
  {
    assert IsSegment(p[0]);
    if |p| > 1 {
      SplitJoin(p[1..]);
      SplitStep(p[0], Join(p[1..]), p[1..]);
      assert p == [p[0]] + p[1..];
    } else {
      SplitWhole(p[0]);
    }
  }

  lemma JoinNonEmpty(p: seq<Text>)
    requires IsPath(p)
    ensures Join(p) == [] <==> p == []
  {
    if p != [] {
      assert IsSegment(p[0]);
    }
  }

  /** Segments and their string form determine each other. */
  lemma SegmentsOfJoin(p: seq<Text>)
    requires IsPath(p)
    ensures Segments(AsPath(p)) == p
    ensures Segments(Some(Join(p))) == p
  {
    JoinNonEmpty(p);
    if p != [] {
      SplitJoin(p);
      KeptAll(p);
    } else {
      assert Kept([[]]) == [];
    }
  }

  lemma JoinInjective(p: seq<Text>, q: seq<Text>)
    requires IsPath(p) && IsPath(q) && Join(p) == Join(q)
    ensures p == q
  {
    SegmentsOfJoin(p);
    SegmentsOfJoin(q);
  }

  /** Normalizing is idempotent, and forgets nothing but how the path was written. */
  lemma NormalizeIsCanonical(path: Option<Text>)
    ensures Normalize(path) == AsPath(Segments(path))
    ensures Segments(Normalize(path)) == Segments(path)
    ensures Normalize(Normalize(path)) == Normalize(path)
  {
    SegmentsArePath(path);
    SegmentsOfJoin(Segments(path));
  }

  lemma NormalizeJoined(p: seq<Text>)
    requires IsPath(p)
    ensures Normalize(Some(Join(p))) == AsPath(p)
  {
    SegmentsOfJoin(p);
  }

  lemma {:induction false} JoinConcat(p: seq<Text>, q: seq<Text>)
    requires p != [] && q != []
    ensures Join(p + q) == Join(p) + [SLASH] + Join(q)
  {
    if |p| == 1 {
      assert (p + q)[1..] == q;
    } else {
      assert (p + q)[1..] == p[1..] + q;
      JoinConcat(p[1..], q);
    }
  }

  // ---------------------------------------------------------------- strings mean segments

  lemma InsideStarts(p: seq<Text>, base: seq<Text>)
    requires base != [] && base <= p && base != p
    ensures StartsWith(Join(p), Join(base) + [SLASH])
    ensures Slice(Join(p), |Join(base)| + 1) == Join(p[|base|..])
  {
    var rest := p[|base|..];
    assert p == base + rest;
    JoinConcat(base, rest);
    var b := Join(base) + [SLASH];
    assert Join(p) == b + Join(rest);
    assert (b + Join(rest))[..|b|] == b && (b + Join(rest))[|b|..] == Join(rest);
  }

  lemma StartsInside(p: seq<Text>, base: seq<Text>)
    requires IsPath(p) && IsPath(base) && p != [] && base != []
    requires StartsWith(Join(p), Join(base) + [SLASH])
    ensures base <= p && base != p
  {
    var s, b := Join(p), Join(base) + [SLASH];
    assert s == Join(base) + [SLASH] + s[|b|..];
    SplitConcat(Join(base), s[|b|..]);
    SplitJoin(p);
    SplitJoin(base);
    assert p == base + Split(s[|b|..]);
  }

  /** The string test for being inside a path is exactly the prefix relation on segments. */
  lemma WithinIsPrefix(p: seq<Text>, base: seq<Text>)
    requires IsPath(p) && IsPath(base) && base != []
    ensures IsWithin(AsPath(p), AsPath(base)) <==> base <= p
  {
    JoinNonEmpty(p);
    JoinNonEmpty(base);
    if base <= p && base != p {
      InsideStarts(p, base);
    }
    if p != [] {
      if StartsWith(Join(p), Join(base) + [SLASH]) {
        StartsInside(p, base);
      } else if Join(p) == Join(base) {
        JoinInjective(p, base);
      }
    }
  }

  lemma {:induction false} LastSlashAt(x: Text, y: Text)
    requires NoSlash(y)
    ensures LastSlash(x + [SLASH] + y) == |x|
    decreases |y|
  {
    var s := x + [SLASH] + y;
    if y != [] {
      LastSlashAt(x, y[..|y| - 1]);
      assert s[..|s| - 1] == x + [SLASH] + y[..|y| - 1];
    }
  }

  lemma {:induction false} LastSlashNone(x: Text)
    requires NoSlash(x)
    ensures LastSlash(x) == -1
    decreases |x|
  {
    if x != [] {
      LastSlashNone(x[..|x| - 1]);
    }
  }

  function Init(p: seq<Text>): seq<Text> {
    if p == [] then [] else p[..|p| - 1]
  }

  lemma InitOfJoin(p: seq<Text>)
    requires IsPath(p) && |p| > 1
    ensures LastSlash(Join(p)) == |Join(Init(p))|
    ensures Join(p)[..|Join(Init(p))|] == Join(Init(p)) != []
  {
    var last := p[|p| - 1];
    assert IsSegment(last);
    assert p == Init(p) + [last];
    JoinConcat(Init(p), [last]);
    LastSlashAt(Join(Init(p)), last);
    JoinNonEmpty(Init(p));
  }

  /** The parent is the path without its last segment. */
  lemma ParentIsInit(path: Option<Text>)
    ensures Parent(path) == AsPath(Init(Segments(path)))
  {
    var p := Segments(path);
    SegmentsArePath(path);
    JoinNonEmpty(p);
    if |p| == 1 {
      assert IsSegment(p[0]);
      LastSlashNone(p[0]);
    } else if |p| > 1 {
      InitOfJoin(p);
    }
  }

  lemma LabelOf(text: Text, parts: seq<Text>)
    requires Split(text) == parts
    ensures Label(text) == parts[|parts| - 1]
  {
  }

  lemma LabelIsLast(p: seq<Text>)
    requires IsPath(p) && p != []
    ensures Label(Join(p)) == p[|p| - 1]
  {
    SplitJoin(p);
    LabelOf(Join(p), p);
  }

  lemma HungText(source: Text, base: Text, to: Option<Text>, whole: seq<Text>)
    requires IsPath(whole)
    requires Join(whole) == Under(to, Slice(source, |base| + 1))
    ensures Hung(source, base, to) == AsPath(whole)
  {
    NormalizeJoined(whole);
  }

  lemma JoinUnder(to: seq<Text>, rest: seq<Text>)
    requires IsPath(to) && rest != []
    ensures Join(to + rest) == Under(AsPath(to), Join(rest))
  {
    JoinNonEmpty(to);
    if to == [] {
      assert to + rest == rest;
    } else {
      JoinConcat(to, rest);
    }
  }

  lemma HungIs(s: Text, b: Text, t: Option<Text>, p: seq<Text>, base: seq<Text>, to: seq<Text>)
    requires IsPath(p) && IsPath(base) && IsPath(to) && base != [] && base <= p && base != p
    requires s == Join(p) && b == Join(base) && t == AsPath(to)
    ensures Hung(s, b, t) == AsPath(to + p[|base|..])
  {
    var rest := p[|base|..];
    assert Slice(s, |b| + 1) == Join(rest) by {
      InsideStarts(p, base);
    }
    assert Join(to + rest) == Under(t, Join(rest)) by {
      JoinUnder(to, rest);
    }
    HungText(s, b, t, to + rest);
  }

  /** What rebasing does to segments: a path inside `from` gets `to` in its place, any other is left. */
  function Moved(p: seq<Text>, from: seq<Text>, to: seq<Text>): seq<Text> {
    if from != [] && from <= p then to + p[|from|..] else p
  }

  lemma LiftIs(s: Option<Text>, b: Option<Text>, t: Option<Text>, p: seq<Text>, base: seq<Text>, to: seq<Text>)
    requires IsPath(p) && IsPath(base) && IsPath(to)
    requires s == AsPath(p) && b == AsPath(base) && t == AsPath(to)
    ensures Lifted(s, b, t) == AsPath(Moved(p, base, to))
  {
    JoinNonEmpty(p);
    JoinNonEmpty(base);
    if p != [] && base != [] {
      WithinIsPrefix(p, base);
      if p == base {
        assert to + p[|base|..] == to;
      } else if s == b {
        JoinInjective(p, base);
      } else if base <= p {
        HungIs(s.value, b.value, t, p, base, to);
      }
    }
  }

  /** Rebasing the strings is replacing the prefix of segments, whatever form the arguments are in. */
  lemma RebaseMovesPrefix(source: Option<Text>, from: Text, to: Option<Text>)
    ensures Rebase(source, from, to) == AsPath(Moved(Segments(source), Segments(Some(from)), Segments(to)))
  {
    SegmentsArePath(source);
    SegmentsArePath(Some(from));
    SegmentsArePath(to);
    LiftIs(Normalize(source), Normalize(Some(from)), Normalize(to), Segments(source), Segments(Some(from)), Segments(to));
  }

  lemma ParentOfPath(p: seq<Text>)
    requires IsPath(p)
    ensures Parent(AsPath(p)) == AsPath(Init(p))
  {
    SegmentsOfJoin(p);
    ParentIsInit(AsPath(p));
  }

  /** Removing a group lifts what was inside it by one level. */
  lemma StripLifts(path: Option<Text>, removed: Text)
    ensures StripRemoved(path, removed)
            == AsPath(Moved(Segments(path), Segments(Some(removed)), Init(Segments(Some(removed)))))
  {
    var p, r := Segments(path), Segments(Some(removed));
    SegmentsArePath(path);
    SegmentsArePath(Some(removed));
    ParentOfPath(r);
    LiftIs(Normalize(path), Normalize(Some(removed)), Parent(Normalize(Some(removed))), p, r, Init(r));
  }

  /** Moving a path there and back restores it, if it was inside `from`, or outside both. */
  lemma ThereAndBack(p: seq<Text>, from: seq<Text>, to: seq<Text>)
    requires from != [] && to != []
    requires from <= p || !(to <= p)
    ensures Moved(Moved(p, from, to), to, from) == p
  {
    if from <= p {
      assert (to + p[|from|..])[|to|..] == p[|from|..];
    }
  }
}
