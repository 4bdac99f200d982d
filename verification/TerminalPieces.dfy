/** Feeding terminal input in pieces instead of at once
    (`applyTerminalInput` in `packages/shared-core/src/terminal-autocomplete.ts`). */
module TerminalPieces {
  import opened Words
  import opened JsText
  import opened TerminalInput

  // ---------------------------------------------------------------- cutting between tokens

  /** Position `k` is where a token of `data` starts, or the end. */
  predicate IsBoundary(data: Text, k: nat)
    decreases |data|
  {
    k == 0 || (data != [] && First(data).1 <= k && IsBoundary(data[First(data).1..], k - First(data).1))
  }

  lemma {:induction false} ParametersPrefix(a: Text, b: Text, from: nat)
    requires from <= |a|
    ensures ParametersEnd(a, from) == Min(ParametersEnd(a + b, from), |a|)
    decreases |a| - from
  {
    if from < |a| && IsParameter(a[from]) {
      ParametersPrefix(a, b, from + 1);
    }
  }

  lemma {:induction false} IntermediatesPrefix(a: Text, b: Text, from: nat)
    requires from <= |a|
    ensures IntermediatesEnd(a, from) == Min(IntermediatesEnd(a + b, from), |a|)
    decreases |a| - from
  {
    if from < |a| && IsIntermediate(a[from]) {
      IntermediatesPrefix(a, b, from + 1);
    }
  }

  /** A control sequence ends at its first final byte, so more input never changes one that is complete. */
  lemma ControlSequencePrefix(a: Text, b: Text)
    requires a != []
    ensures var whole := ControlSequence(a + b);
            ControlSequence(a) == if whole.Some? && whole.value <= |a| then whole else None
  {
    if StartsCsi(a + b) && 2 <= |a| {
      ParametersPrefix(a, b, 2);
      IntermediatesPrefix(a, b, ParametersEnd(a, 2));
    }
  }

  /** A token that ends within the first piece is the token of that piece alone. */
  lemma FirstPrefix(a: Text, b: Text)
    requires a != [] && First(a + b).1 <= |a|
    ensures First(a) == First(a + b)
  {
    ControlSequencePrefix(a, b);
    if 2 <= |a| {
      assert (a + b)[..2] == a[..2];
    }
  }

  lemma {:induction false} TokensSplit(a: Text, b: Text)
    requires IsBoundary(a + b, |a|)
    ensures Tokens(a + b) == Tokens(a) + Tokens(b)
    decreases |a|
  {
    if a == [] {
      assert a + b == b;
    } else {
      FirstPrefix(a, b);
      var n := First(a).1;
      assert (a + b)[n..] == a[n..] + b;
      TokensSplit(a[n..], b);
    }
  }

  lemma {:induction false} ExecutedOf(b: Buffer, executed: Option<Text>, tokens: seq<Token>)
    ensures Replay(b, executed, tokens).0 == Replay(b, None, tokens).0
    ensures Replay(b, executed, tokens).1 == if LineEnd in tokens then Replay(b, None, tokens).1 else executed
    decreases |tokens|
  {
    if tokens != [] {
      var ran := Submitted(b.value);
      if tokens[0].LineEnd? {
        ExecutedOf(Effect(b, tokens[0]), ran, tokens[1..]);
      } else {
        ExecutedOf(Effect(b, tokens[0]), executed, tokens[1..]);
        ExecutedOf(Effect(b, tokens[0]), None, tokens[1..]);
        assert LineEnd in tokens <==> LineEnd in tokens[1..];
      }
    }
  }

  // ---------------------------------------------------------------- cutting inside a token

  const CTRL_U: U16 := 0x15

  /** Position `k` is strictly inside a surrogate pair of `data`. */
  predicate InsidePair(data: Text, k: nat)
    decreases |data|
  {
    data != []
    && if First(data).1 <= k then InsidePair(data[First(data).1..], k - First(data).1) else 0 < k && IsPair(data)
  }

  /** Position `k` is strictly inside an escape sequence of `data`. */
  predicate InsideEscape(data: Text, k: nat)
    decreases |data|
  {
    data != []
    && if First(data).1 <= k then InsideEscape(data[First(data).1..], k - First(data).1) else 0 < k && StartsEsc(data)
  }

  /** Every cut is exactly one of the three. */
  lemma {:induction false} EveryCut(data: Text, k: nat)
    requires k <= |data|
    ensures IsBoundary(data, k) || InsidePair(data, k) || InsideEscape(data, k)
    ensures !(IsBoundary(data, k) && InsidePair(data, k)) && !(IsBoundary(data, k) && InsideEscape(data, k))
    ensures !(InsidePair(data, k) && InsideEscape(data, k))
    decreases |data|
  {
    if 0 < k && First(data).1 <= k {
      EveryCut(data[First(data).1..], k - First(data).1);
    }
  }

  /** The halves of a pair, typed one after the other, put in what the pair does. */
  lemma HalvesInsert(b: Buffer, high: U16, low: U16)
    ensures Effect(Effect(b, Insert([high])), Insert([low])) == Effect(b, Insert([high, low]))
  {
    var left, right := Before(b.value, b.cursor), From(b.value, b.cursor);
    var mid := left + [high] + right;
    assert Before(mid, b.cursor + 1) == left + [high] && From(mid, b.cursor + 1) == right;
    assert left + [high] + [low] + right == left + [high, low] + right;
  }

  lemma UnitFirst(b: Buffer, executed: Option<Text>, u: U16, rest: Text)
    requires 0x20 <= u && u != 0x7F && !IsPair([u] + rest)
    ensures Replay(b, executed, Tokens([u] + rest)) == Replay(Effect(b, Insert([u])), executed, Tokens(rest))
  {
    ReplayHead(b, executed, [u] + rest);
    assert ([u] + rest)[1..] == rest;
  }

  lemma HighAlone(b: Buffer, executed: Option<Text>, high: U16)
    requires 0xD800 <= high <= 0xDBFF
    ensures Replay(b, executed, Tokens([high])) == (Effect(b, Insert([high])), executed)
  {
    assert [high] + [] == [high];
    UnitFirst(b, executed, high, []);
  }

  lemma PairWhole(b: Buffer, executed: Option<Text>, high: U16, low: U16, rest: Text)
    requires 0xD800 <= high <= 0xDBFF && 0xDC00 <= low <= 0xDFFF
    ensures Replay(b, executed, Tokens([high, low] + rest)) == Replay(Effect(b, Insert([high, low])), executed, Tokens(rest))
  {
    var data := [high, low] + rest;
    assert data[..2] == [high, low] && data[2..] == rest;
    ReplayHead(b, executed, data);
  }

  lemma Halves(b: Buffer, executed: Option<Text>, high: U16, low: U16, rest: Text)
    requires 0xD800 <= high <= 0xDBFF && 0xDC00 <= low <= 0xDFFF
    ensures var (mid, ran) := Replay(b, executed, Tokens([high]));
            Replay(mid, ran, Tokens([low] + rest)) == Replay(b, executed, Tokens([high, low] + rest))
  {
    HighAlone(b, executed, high);
    PairWhole(b, executed, high, low, rest);
    UnitFirst(Effect(b, Insert([high])), executed, low, rest);
    HalvesInsert(b, high, low);
  }

  lemma PairHere(b: Buffer, executed: Option<Text>, first: Text, second: Text)
    requires |first| == 1 && IsPair(first + second)
    ensures var (mid, ran) := Replay(b, executed, Tokens(first));
            Replay(mid, ran, Tokens(second)) == Replay(b, executed, Tokens(first + second))
  {
    var low, rest := second[0], second[1..];
    assert second == [low] + rest && first == [first[0]] && (first + second)[1] == low;
    assert first + second == [first[0], low] + rest;
    Halves(b, executed, first[0], low, rest);
  }

  lemma RestSplits(first: Text, second: Text, n: nat)
    requires n <= |first|
    ensures (first + second)[n..] == first[n..] + second
  {
  }

  lemma {:induction false} PairCut(b: Buffer, executed: Option<Text>, first: Text, second: Text)
    requires InsidePair(first + second, |first|)
    ensures var (mid, ran) := Replay(b, executed, Tokens(first));
            Replay(mid, ran, Tokens(second)) == Replay(b, executed, Tokens(first + second))
    decreases |first|
  {
    var data := first + second;
    var (token, n) := First(data);
    ReplayHead(b, executed, data);
    if n <= |first| {
      FirstPrefix(first, second);
      ReplayHead(b, executed, first);
      RestSplits(first, second, n);
      PairCut(Effect(b, token), if token.LineEnd? then Submitted(b.value) else executed, first[n..], second);
    } else {
      PairHere(b, executed, first, second);
    }
  }

  /** Feeding input in two pieces that meet between tokens, or inside a surrogate pair, is feeding it at
      once: the same buffer, and the executed command of the second piece if it submits a line, else that
      of the first. */
  lemma FeedingInPieces(b: Buffer, first: Text, second: Text)
    requires IsBoundary(first + second, |first|) || InsidePair(first + second, |first|)
    ensures var whole := Replay(b, None, Tokens(first + second));
            var (mid, ran) := Replay(b, None, Tokens(first));
            var (end, ranLater) := Replay(mid, None, Tokens(second));
            && whole.0 == end
            && whole.1 == (if LineEnd in Tokens(second) then ranLater else ran)
  {
    if IsBoundary(first + second, |first|) {
      TokensSplit(first, second);
      ReplayThen(b, None, Tokens(first), Tokens(second));
    } else {
      PairCut(b, None, first, second);
    }
    var (mid, ran) := Replay(b, None, Tokens(first));
    ExecutedOf(mid, ran, Tokens(second));
  }

  // ---------------------------------------------------------------- cutting an escape sequence

  lemma {:induction false} AmbiguousStays(b: Buffer, executed: Option<Text>, tokens: seq<Token>)
    requires b.ambiguous && KillLine !in tokens
    ensures Replay(b, executed, tokens).0.ambiguous
    decreases |tokens|
  {
    if tokens != [] {
      assert tokens[0] != KillLine;
      AmbiguousStays(Effect(b, tokens[0]), if tokens[0].LineEnd? then Submitted(b.value) else executed, tokens[1..]);
    }
  }

  lemma {:induction false} NoKill(data: Text)
    requires CTRL_U !in data
    ensures KillLine !in Tokens(data)
    decreases |data|
  {
    if data != [] {
      assert data[0] != CTRL_U;
      NoKill(data[First(data).1..]);
    }
  }

  lemma {:induction false} ParametersStop(data: Text, from: nat, q: nat)
    requires from <= q < |data| && !IsParameter(data[q])
    ensures ParametersEnd(data, from) <= q
    decreases q - from
  {
    if from < q && IsParameter(data[from]) {
      ParametersStop(data, from + 1, q);
    }
  }

  lemma {:induction false} IntermediatesStop(data: Text, from: nat, q: nat)
    requires from <= q < |data| && !IsIntermediate(data[q])
    ensures IntermediatesEnd(data, from) <= q
    decreases q - from
  {
    if from < q && IsIntermediate(data[from]) {
      IntermediatesStop(data, from + 1, q);
    }
  }

  /** A Ctrl-U is the last unit of any token that holds it. */
  lemma KillEndsToken(data: Text, q: nat)
    requires q < |data| && data[q] == CTRL_U
    ensures First(data).1 <= q + 1
  {
    if StartsCsi(data) && 2 <= q {
      ParametersStop(data, 2, q);
      IntermediatesStop(data, ParametersEnd(data, 2), q);
    }
  }

  /** The beginning of an escape sequence is read as one of unknown meaning, and holds no Ctrl-U. */
  lemma HalfEscape(first: Text, second: Text)
    requires first != [] && StartsEsc(first) && |first| < First(first + second).1
    ensures First(first).0 == UnknownEscape && CTRL_U !in first
  {
    forall q | 0 <= q < |first| ensures first[q] != CTRL_U {
      if first[q] == CTRL_U {
        KillEndsToken(first + second, q);
      }
    }
  }

  /** A piece that ends inside an escape sequence leaves the buffer ambiguous. */
  lemma {:induction false} EscapeCut(b: Buffer, executed: Option<Text>, first: Text, second: Text)
    requires InsideEscape(first + second, |first|)
    ensures Replay(b, executed, Tokens(first)).0.ambiguous
    decreases |first|
  {
    var data := first + second;
    var (token, n) := First(data);
    ReplayHead(b, executed, first);
    if n <= |first| {
      FirstPrefix(first, second);
      RestSplits(first, second, n);
      EscapeCut(Effect(b, token), if token.LineEnd? then Submitted(b.value) else executed, first[n..], second);
    } else {
      HalfEscape(first, second);
      NoKill(first[First(first).1..]);
      AmbiguousStays(Effect(b, UnknownEscape), executed, Tokens(first[First(first).1..]));
    }
  }

  /** The exact condition: when the whole input ends unambiguous, and no Ctrl-U in the second piece wipes
      the line, feeding it in two pieces gives the same buffer if and only if they do not meet inside an
      escape sequence, that is, if they meet between tokens or inside a surrogate pair. */
  lemma PiecesAgreeIff(b: Buffer, first: Text, second: Text)
    requires !Replay(b, None, Tokens(first + second)).0.ambiguous && KillLine !in Tokens(second)
    ensures Replay(Replay(b, None, Tokens(first)).0, None, Tokens(second)).0 == Replay(b, None, Tokens(first + second)).0
       <==> IsBoundary(first + second, |first|) || InsidePair(first + second, |first|)
  {
    EveryCut(first + second, |first|);
    if InsideEscape(first + second, |first|) {
      EscapeCut(b, None, first, second);
      AmbiguousStays(Replay(b, None, Tokens(first)).0, None, Tokens(second));
    } else {
      FeedingInPieces(b, first, second);
    }
  }

  // ---------------------------------------------------------------- no cut gives a wrong line

  lemma {:induction false} KillIsBoundary(data: Text, q: nat)
    requires q < |data| && data[q] == CTRL_U
    ensures IsBoundary(data, q + 1)
    decreases |data|
  {
    KillEndsToken(data, q);
    var n := First(data).1;
    if n <= q {
      KillIsBoundary(data[n..], q - n);
    }
  }

  /** After input that ends in Ctrl-U the line is empty, or the Ctrl-U was swallowed by an escape sequence. */
  lemma {:induction false} KillLast(b: Buffer, executed: Option<Text>, data: Text)
    requires data != [] && data[|data| - 1] == CTRL_U
    ensures var r := Replay(b, executed, Tokens(data)).0; r == EMPTY_BUFFER || r.ambiguous
    decreases |data|
  {
    var (token, n) := First(data);
    ReplayHead(b, executed, data);
    if n < |data| {
      KillLast(Effect(b, token), if token.LineEnd? then Submitted(b.value) else executed, data[n..]);
    } else {
      assert token == KillLine || token == UnknownEscape by {
        LastUnit(data);
      }
      assert Tokens(data[n..]) == [];
    }
  }

  lemma LastUnit(data: Text)
    requires data != [] && data[|data| - 1] == CTRL_U && First(data).1 == |data|
    ensures First(data).0 == KillLine || First(data).0 == UnknownEscape
  {
    if StartsCsi(data) && 3 <= |data| {
      ParametersStop(data, 2, |data| - 1);
      IntermediatesStop(data, ParametersEnd(data, 2), |data| - 1);
    }
  }

  /** What follows the last Ctrl-U decides: an unambiguous end means that the line was empty there. */
  lemma AfterKill(b: Buffer, executed: Option<Text>, head: Text, rest: Text)
    requires head != [] && head[|head| - 1] == CTRL_U && CTRL_U !in rest
    ensures var r := Replay(b, executed, Tokens(head + rest)).0;
            r.ambiguous || r == Replay(EMPTY_BUFFER, None, Tokens(rest)).0
  {
    EndsAtKill(head, rest);
    TokensSplit(head, rest);
    ReplayThen(b, executed, Tokens(head), Tokens(rest));
    KillLast(b, executed, head);
    var (mid, ran) := Replay(b, executed, Tokens(head));
    NoKill(rest);
    if mid.ambiguous {
      AmbiguousStays(mid, ran, Tokens(rest));
    } else {
      ExecutedOf(mid, ran, Tokens(rest));
    }
  }

  lemma EndsAtKill(head: Text, rest: Text)
    requires head != [] && head[|head| - 1] == CTRL_U
    ensures IsBoundary(head + rest, |head|)
  {
    KillIsBoundary(head + rest, |head| - 1);
  }

  lemma {:induction false} LastKill(s: Text) returns (head: Text, rest: Text)
    requires CTRL_U in s
    ensures s == head + rest && head != [] && head[|head| - 1] == CTRL_U && CTRL_U !in rest
    decreases |s|
  {
    var init, last := s[..|s| - 1], s[|s| - 1];
    assert s == init + [last];
    if last == CTRL_U {
      head, rest := s, [];
    } else {
      head, rest := LastKill(init);
      rest := rest + [last];
    }
  }

  lemma BothAfterKill(b: Buffer, mid: Buffer, first: Text, second: Text)
    requires CTRL_U in second
    ensures var whole, pieces := Replay(b, None, Tokens(first + second)).0, Replay(mid, None, Tokens(second)).0;
            !whole.ambiguous && !pieces.ambiguous ==> whole == pieces
  {
    var head, rest := LastKill(second);
    assert first + (head + rest) == (first + head) + rest;
    AfterKill(mid, None, head, rest);
    AfterKill(b, None, first + head, rest);
  }

  /** Wherever the input is cut, the pieces can lose certainty but never give a wrong line: if the buffer is
      unambiguous both ways, it is the same buffer. */
  lemma NeverWrong(b: Buffer, first: Text, second: Text)
    ensures var whole := Replay(b, None, Tokens(first + second)).0;
            var pieces := Replay(Replay(b, None, Tokens(first)).0, None, Tokens(second)).0;
            !whole.ambiguous && !pieces.ambiguous ==> whole == pieces
  {
    EveryCut(first + second, |first|);
    var mid := Replay(b, None, Tokens(first)).0;
    if !InsideEscape(first + second, |first|) {
      FeedingInPieces(b, first, second);
    } else if CTRL_U in second {
      BothAfterKill(b, mid, first, second);
    } else {
      EscapeCut(b, None, first, second);
      NoKill(second);
      AmbiguousStays(mid, None, Tokens(second));
    }
  }

  const LEFT_KEY: Text := [ESC, 0x5B, 0x44]

  /** Where the pieces meet matters: splitting inside an arrow key loses the buffer. */
  lemma SplitInsideEscapeDiffers()
    ensures var left := LEFT_KEY;
            && !IsBoundary(left, 1)
            && !Replay(EMPTY_BUFFER, None, Tokens(left)).0.ambiguous
            && Replay(EMPTY_BUFFER, None, Tokens(left[..1])).0.ambiguous
  {
    var left := LEFT_KEY;
    assert First(left) == (CursorLeft, 3);
    assert left[3..] == [] && Tokens(left) == [CursorLeft] + Tokens(left[3..]);
    assert Replay(EMPTY_BUFFER, None, [CursorLeft]) == Replay(Effect(EMPTY_BUFFER, CursorLeft), None, []);
    assert left[..1] == [ESC] && First([ESC]) == (UnknownEscape, 1);
    assert [ESC][1..] == [] && Tokens([ESC]) == [UnknownEscape] + Tokens([ESC][1..]);
    assert Replay(EMPTY_BUFFER, None, [UnknownEscape]) == Replay(Effect(EMPTY_BUFFER, UnknownEscape), None, []);
  }

  /** And so does what follows: with a Ctrl-U after the same cut, the pieces agree again. */
  lemma KillWipesTheCut()
    ensures var data := LEFT_KEY + [CTRL_U];
            && InsideEscape(data, 1)
            && Replay(EMPTY_BUFFER, None, Tokens(data)).0 == EMPTY_BUFFER
            && Replay(Replay(EMPTY_BUFFER, None, Tokens(data[..1])).0, None, Tokens(data[1..])).0 == EMPTY_BUFFER
  {
    var data := LEFT_KEY + [CTRL_U];
    assert First(data) == (CursorLeft, 3) && data[3..] == [CTRL_U];
    ReplayHead(EMPTY_BUFFER, None, data);
    KilledAtOnce(Effect(EMPTY_BUFFER, CursorLeft));
    KilledAfter(Replay(EMPTY_BUFFER, None, Tokens(data[..1])).0, data[1..]);
  }

  lemma KilledAtOnce(b: Buffer)
    ensures Replay(b, None, Tokens([CTRL_U])).0 == EMPTY_BUFFER
  {
    ReplayHead(b, None, [CTRL_U]);
    assert [CTRL_U][1..] == [];
  }

  lemma KilledAfter(b: Buffer, data: Text)
    requires data == [0x5B, 0x44, CTRL_U]
    ensures Replay(b, None, Tokens(data)).0 == EMPTY_BUFFER
  {
    assert data == [0x5B] + [0x44, CTRL_U] && [0x44, CTRL_U] == [0x44] + [CTRL_U];
    UnitFirst(b, None, 0x5B, [0x44, CTRL_U]);
    UnitFirst(Effect(b, Insert([0x5B])), None, 0x44, [CTRL_U]);
    KilledAtOnce(Effect(Effect(b, Insert([0x5B])), Insert([0x44])));
  }
}
