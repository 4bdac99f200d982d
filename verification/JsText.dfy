/** JavaScript strings: sequences of UTF-16 code units. */
module JsText {
  import opened Words

  type Text = seq<U16>

  const SLASH: U16 := 0x2F

  /** What `\s` matches and `trim` removes. */
  predicate IsSpace(u: U16) {
    0x09 <= u <= 0x0D || u == 0x20 || u == 0xA0 || u == 0x1680 || 0x2000 <= u <= 0x200A
    || u == 0x2028 || u == 0x2029 || u == 0x202F || u == 0x205F || u == 0x3000 || u == 0xFEFF
  }

  function Trim(s: Text): Text
    decreases |s|
  {
    if s != [] && IsSpace(s[0]) then Trim(s[1..])
    else if s != [] && IsSpace(s[|s| - 1]) then Trim(s[..|s| - 1])
    else s
  }

  predicate HasSpace(s: Text) {
    exists k :: 0 <= k < |s| && IsSpace(s[k])
  }

  lemma TrimNothing(s: Text)
    requires !HasSpace(s)
    ensures Trim(s) == s
  {
  }

  predicate AllSpaces(s: Text) {
    forall k :: 0 <= k < |s| ==> IsSpace(s[k])
  }

  /** `s` is `core` with spaces around it. */
  predicate Wraps(s: Text, before: Text, core: Text, after: Text) {
    s == before + core + after && AllSpaces(before) && AllSpaces(after)
  }

  lemma WrapsMore(s: Text, before: Text, core: Text, after: Text, c: U16)
    requires Wraps(s, before, core, after) && IsSpace(c)
    ensures Wraps([c] + s, [c] + before, core, after)
    ensures Wraps(s + [c], before, core, after + [c])
  {
  }

  lemma EndsOf(s: Text)
    requires s != []
    ensures s == [s[0]] + s[1..] && s == s[..|s| - 1] + [s[|s| - 1]]
  {
  }

  /** Trimming takes the spaces off both ends, all of them and nothing else. */
  lemma {:induction false} TrimMeans(s: Text) returns (before: Text, after: Text)
    ensures Wraps(s, before, Trim(s), after)
    ensures Trim(s) != [] ==> !IsSpace(Trim(s)[0]) && !IsSpace(Trim(s)[|Trim(s)| - 1])
    decreases |s|
  {
    before, after := [], [];
    if s != [] {
      EndsOf(s);
    }
    if s != [] && IsSpace(s[0]) {
      before, after := TrimMeans(s[1..]);
      WrapsMore(s[1..], before, Trim(s[1..]), after, s[0]);
      before := [s[0]] + before;
    } else if s != [] && IsSpace(s[|s| - 1]) {
      before, after := TrimMeans(s[..|s| - 1]);
      WrapsMore(s[..|s| - 1], before, Trim(s[..|s| - 1]), after, s[|s| - 1]);
      after := after + [s[|s| - 1]];
    } else {
      assert Wraps(s, [], s, []);
    }
  }

  /** Spaces around a text that neither begins nor ends with one are trimmed. */
  lemma {:induction false} TrimSurrounded(before: Text, s: Text, after: Text)
    requires AllSpaces(before) && AllSpaces(after) && s != [] && !IsSpace(s[0]) && !IsSpace(s[|s| - 1])
    ensures Trim(before + s + after) == s
    decreases |before| + |after|
  {
    var all := before + s + after;
    if before != [] {
      assert all[1..] == before[1..] + s + after && all[0] == before[0];
      TrimSurrounded(before[1..], s, after);
    } else if after != [] {
      assert all[..|all| - 1] == before + s + after[..|after| - 1] && all[|all| - 1] == after[|after| - 1] && all[0] == s[0];
      TrimSurrounded(before, s, after[..|after| - 1]);
    } else {
      assert all == s;
    }
  }
}
