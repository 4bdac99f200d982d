/** What it means that one list was selected from another: which elements, in which order, and what was made
    of each. */
module Selections {
  /** The places in `s` from which `r` was made: increasing, exactly those whose element is wanted, and each
      element of `r` made of the one at its place. */
  ghost predicate Picks<T(!new), U(!new)>(places: seq<nat>, s: seq<T>, wanted: T -> bool, r: seq<U>, made: (T, U) -> bool) {
    && |places| == |r|
    && (forall i, j :: 0 <= i < j < |places| ==> places[i] < places[j])
    && (forall i :: 0 <= i < |places| ==> places[i] < |s| && wanted(s[places[i]]) && made(s[places[i]], r[i]))
    && (forall k :: 0 <= k < |s| && wanted(s[k]) ==> k in places)
  }

  /** `r` holds what is made of the wanted elements of `s`, in their order, and nothing else. */
  ghost predicate Selects<T(!new), U(!new)>(s: seq<T>, wanted: T -> bool, r: seq<U>, made: (T, U) -> bool) {
    exists places :: Picks(places, s, wanted, r, made)
  }

  lemma SelectsNothing<T(!new), U(!new)>(wanted: T -> bool, made: (T, U) -> bool)
    ensures Selects([], wanted, [], made)
  {
    assert Picks([], [], wanted, [], made);
  }

  lemma SelectsSkip<T(!new), U(!new)>(s: seq<T>, x: T, wanted: T -> bool, r: seq<U>, made: (T, U) -> bool)
    requires Selects(s, wanted, r, made) && !wanted(x)
    ensures Selects(s + [x], wanted, r, made)
  {
    var places :| Picks(places, s, wanted, r, made);
    assert forall k :: 0 <= k < |s| ==> (s + [x])[k] == s[k];
    assert Picks(places, s + [x], wanted, r, made);
  }

  lemma PicksTake<T(!new), U(!new)>(places: seq<nat>, s: seq<T>, x: T, wanted: T -> bool, r: seq<U>, y: U, made: (T, U) -> bool)
    requires Picks(places, s, wanted, r, made) && wanted(x) && made(x, y)
    ensures Picks(places + [|s|], s + [x], wanted, r + [y], made)
  {
    var more, longer := places + [|s|], s + [x];
    forall i | 0 <= i < |more| ensures more[i] < |longer| && wanted(longer[more[i]]) && made(longer[more[i]], (r + [y])[i]) {
      if i < |places| {
        assert more[i] == places[i];
      }
    }
    forall k | 0 <= k < |longer| && wanted(longer[k]) ensures k in more {
      if k < |s| {
        assert wanted(s[k]);
      } else {
        assert more[|places|] == k;
      }
    }
  }

  lemma SelectsTake<T(!new), U(!new)>(s: seq<T>, x: T, wanted: T -> bool, r: seq<U>, y: U, made: (T, U) -> bool)
    requires Selects(s, wanted, r, made) && wanted(x) && made(x, y)
    ensures Selects(s + [x], wanted, r + [y], made)
  {
    var places :| Picks(places, s, wanted, r, made);
    PicksTake(places, s, x, wanted, r, y, made);
  }

  /** An element of the result is one of the list, as it was. */
  function AsItWas<T(==)>(): (T, T) -> bool {
    (x: T, y: T) => y == x
  }
}
