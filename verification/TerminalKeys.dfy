/** What each key does to the text left and right of the cursor, from the code units it sends, with any
    input behind it (`applyTerminalInput` in `packages/shared-core/src/terminal-autocomplete.ts`). */
module TerminalKeys {
  import opened Words
  import opened JsText
  import opened TerminalInput

  /** The buffer with this text left and right of the cursor. */
  function At(left: Text, right: Text, ambiguous: bool): Buffer {
    Buffer(left + right, |left|, ambiguous)
  }

  /** Every buffer whose cursor is inside its value is one of these. */
  lemma EveryBuffer(b: Buffer)
    requires InRange(b)
    ensures b == At(b.value[..b.cursor], b.value[b.cursor..], b.ambiguous)
  {
  }

  lemma TokenThen(b: Buffer, key: Text, rest: Text, token: Token)
    requires key != [] && First(key + rest) == (token, |key|) && !token.LineEnd?
    ensures Fed(b, key + rest) == Fed(Effect(b, token), rest)
  {
    ReplayHead(b, None, key + rest);
    assert (key + rest)[|key|..] == rest;
  }

  // ---------------------------------------------------------------- the sequences

  const CSI: Text := [0x1B, 0x5B]
  const SS3: Text := [0x1B, 0x4F]

  /** ESC [ c, or ESC O c. */
  predicate IsKey(key: Text, c: U16) {
    key == CSI + [c] || key == SS3 + [c]
  }

  /** The token of such a key, whatever comes behind. */
  function KeyToken(c: U16): Option<Token> {
    if c == 0x41 || c == 0x42 then Some(History)
    else if c == 0x43 then Some(CursorRight)
    else if c == 0x44 then Some(CursorLeft)
    else if c == 0x46 then Some(End)
    else if c == 0x48 then Some(Home)
    else None
  }

  lemma KeyFirst(key: Text, c: U16, rest: Text)
    requires IsKey(key, c) && KeyToken(c).Some?
    ensures First(key + rest) == (KeyToken(c).value, 3) && |key| == 3
  {
    var data := key + rest;
    assert data[0] == 0x1B && (data[1] == 0x5B || data[1] == 0x4F) && data[2] == c;
  }

  lemma TildeFirst(c: U16, rest: Text)
    requires c == 0x31 || c == 0x33 || c == 0x34
    ensures First(CSI + [c, 0x7E] + rest) == (if c == 0x31 then Home else if c == 0x33 then DeleteForward else End, 4)
  {
    var data := CSI + [c, 0x7E] + rest;
    assert data[0] == 0x1B && data[1] == 0x5B && data[2] == c && data[3] == 0x7E;
  }

  lemma UnitFirst(u: U16, rest: Text)
    requires u != 0x1B && !IsPair([u] + rest)
    ensures First([u] + rest) == (ControlToken(u), 1)
  {
    FirstCharacter([u] + rest);
  }

  // ---------------------------------------------------------------- moving

  /** Left, as ESC [ D or ESC O D: the unit left of the cursor is then right of it; at the start nothing. */
  lemma LeftKey(left: Text, u: U16, right: Text, ambiguous: bool, key: Text, rest: Text)
    requires key == [0x1B, 0x5B, 0x44] || key == [0x1B, 0x4F, 0x44]
    ensures Fed(At(left + [u], right, ambiguous), key + rest) == Fed(At(left, [u] + right, ambiguous), rest)
    ensures Fed(At([], right, ambiguous), key + rest) == Fed(At([], right, ambiguous), rest)
  {
    KeyFirst(key, 0x44, rest);
    TokenThen(At(left + [u], right, ambiguous), key, rest, CursorLeft);
    TokenThen(At([], right, ambiguous), key, rest, CursorLeft);
    assert left + [u] + right == left + ([u] + right);
  }

  /** Right, as ESC [ C or ESC O C. */
  lemma RightKey(left: Text, u: U16, right: Text, ambiguous: bool, key: Text, rest: Text)
    requires key == [0x1B, 0x5B, 0x43] || key == [0x1B, 0x4F, 0x43]
    ensures Fed(At(left, [u] + right, ambiguous), key + rest) == Fed(At(left + [u], right, ambiguous), rest)
    ensures Fed(At(left, [], ambiguous), key + rest) == Fed(At(left, [], ambiguous), rest)
  {
    KeyFirst(key, 0x43, rest);
    TokenThen(At(left, [u] + right, ambiguous), key, rest, CursorRight);
    TokenThen(At(left, [], ambiguous), key, rest, CursorRight);
    assert left + [u] + right == left + ([u] + right);
  }

  /** Home, as ESC [ H, ESC O H, ESC [ 1 ~ or Ctrl-A. */
  lemma HomeKey(left: Text, right: Text, ambiguous: bool, key: Text, rest: Text)
    requires key in {[0x1B, 0x5B, 0x48], [0x1B, 0x4F, 0x48], [0x1B, 0x5B, 0x31, 0x7E], [0x01]}
    ensures Fed(At(left, right, ambiguous), key + rest) == Fed(At([], left + right, ambiguous), rest)
  {
    if |key| == 3 {
      KeyFirst(key, 0x48, rest);
    } else if |key| == 4 {
      TildeFirst(0x31, rest);
      assert key == CSI + [0x31, 0x7E];
    } else {
      UnitFirst(0x01, rest);
    }
    TokenThen(At(left, right, ambiguous), key, rest, Home);
    assert [] + (left + right) == left + right;
  }

  /** End, as ESC [ F, ESC O F, ESC [ 4 ~ or Ctrl-E. */
  lemma EndKey(left: Text, right: Text, ambiguous: bool, key: Text, rest: Text)
    requires key in {[0x1B, 0x5B, 0x46], [0x1B, 0x4F, 0x46], [0x1B, 0x5B, 0x34, 0x7E], [0x05]}
    ensures Fed(At(left, right, ambiguous), key + rest) == Fed(At(left + right, [], ambiguous), rest)
  {
    if |key| == 3 {
      KeyFirst(key, 0x46, rest);
    } else if |key| == 4 {
      TildeFirst(0x34, rest);
      assert key == CSI + [0x34, 0x7E];
    } else {
      UnitFirst(0x05, rest);
    }
    TokenThen(At(left, right, ambiguous), key, rest, End);
    assert (left + right) + [] == left + right;
  }

  // ---------------------------------------------------------------- changing the line

  /** Delete, as ESC [ 3 ~: the unit right of the cursor goes; at the end nothing. */
  lemma DeleteKey(left: Text, u: U16, right: Text, ambiguous: bool, rest: Text)
    ensures var key := [0x1B, 0x5B, 0x33, 0x7E];
            && Fed(At(left, [u] + right, ambiguous), key + rest) == Fed(At(left, right, ambiguous), rest)
            && Fed(At(left, [], ambiguous), key + rest) == Fed(At(left, [], ambiguous), rest)
  {
    var key := [0x1B, 0x5B, 0x33, 0x7E];
    TildeFirst(0x33, rest);
    assert key == CSI + [0x33, 0x7E];
    TokenThen(At(left, [u] + right, ambiguous), key, rest, DeleteForward);
    TokenThen(At(left, [], ambiguous), key, rest, DeleteForward);
    assert (left + ([u] + right))[..|left|] == left && (left + ([u] + right))[|left| + 1..] == right;
  }

  /** Backspace, as DEL or BS: the unit left of the cursor goes; at the start nothing. */
  lemma BackspaceKey(left: Text, u: U16, right: Text, ambiguous: bool, unit: U16, rest: Text)
    requires unit == 0x7F || unit == 0x08
    ensures Fed(At(left + [u], right, ambiguous), [unit] + rest) == Fed(At(left, right, ambiguous), rest)
    ensures Fed(At([], right, ambiguous), [unit] + rest) == Fed(At([], right, ambiguous), rest)
  {
    UnitFirst(unit, rest);
    TokenThen(At(left + [u], right, ambiguous), [unit], rest, Backspace);
    TokenThen(At([], right, ambiguous), [unit], rest, Backspace);
    assert (left + [u] + right)[..|left|] == left && (left + [u] + right)[|left| + 1..] == right;
  }

  lemma InsertAt(left: Text, right: Text, ambiguous: bool, units: Text)
    ensures Effect(At(left, right, ambiguous), Insert(units)) == At(left + units, right, ambiguous)
  {
    assert (left + right)[..|left|] == left && (left + right)[|left|..] == right;
  }

  /** A printable unit that is not the first half of a surrogate pair goes in left of the cursor. */
  lemma PrintableKey(left: Text, right: Text, ambiguous: bool, u: U16, rest: Text)
    requires 0x20 <= u && u != 0x7F
    requires 0xD800 <= u <= 0xDBFF && rest != [] ==> !(0xDC00 <= rest[0] <= 0xDFFF)
    ensures Fed(At(left, right, ambiguous), [u] + rest) == Fed(At(left + [u], right, ambiguous), rest)
  {
    assert !IsPair([u] + rest);
    UnitFirst(u, rest);
    TokenThen(At(left, right, ambiguous), [u], rest, Insert([u]));
    InsertAt(left, right, ambiguous, [u]);
  }

  /** So does a surrogate pair, whole. */
  lemma PairKey(left: Text, right: Text, ambiguous: bool, high: U16, low: U16, rest: Text)
    requires 0xD800 <= high <= 0xDBFF && 0xDC00 <= low <= 0xDFFF
    ensures Fed(At(left, right, ambiguous), [high, low] + rest) == Fed(At(left + [high, low], right, ambiguous), rest)
  {
    var data := [high, low] + rest;
    assert data[0] == high && data[1] == low && data[..2] == [high, low];
    FirstCharacter(data);
    TokenThen(At(left, right, ambiguous), [high, low], rest, Insert([high, low]));
    InsertAt(left, right, ambiguous, [high, low]);
  }

  // ---------------------------------------------------------------- leaving the line

  /** Ctrl-U empties the line, and what it is is known again. */
  lemma KillKey(b: Buffer, rest: Text)
    ensures Fed(b, [0x15] + rest) == Fed(At([], [], false), rest)
  {
    assert At([], [], false) == EMPTY_BUFFER;
    UnitFirst(0x15, rest);
    TokenThen(b, [0x15], rest, KillLine);
  }

  /** Up, down and Ctrl-C leave a line that is not known. */
  lemma HistoryKey(b: Buffer, key: Text, rest: Text)
    requires key in {[0x1B, 0x5B, 0x41], [0x1B, 0x5B, 0x42], [0x1B, 0x4F, 0x41], [0x1B, 0x4F, 0x42], [0x03]}
    ensures Fed(b, key + rest) == Fed(At([], [], true), rest)
  {
    assert At([], [], true) == Buffer([], 0, true);
    if |key| == 3 {
      KeyFirst(key, key[2], rest);
      TokenThen(b, key, rest, History);
    } else {
      UnitFirst(0x03, rest);
      TokenThen(b, key, rest, Interrupt);
    }
  }

  lemma {:induction false} NoLineEnd(data: Text)
    requires 0x0D !in data && 0x0A !in data
    ensures LineEnd !in Tokens(data)
    decreases |data|
  {
    if data != [] {
      assert data[0] != 0x0D && data[0] != 0x0A;
      NoLineEnd(data[First(data).1..]);
    }
  }

  lemma {:induction false} ExecutedStays(b: Buffer, executed: Option<Text>, tokens: seq<Token>)
    ensures Replay(b, executed, tokens).0 == Replay(b, None, tokens).0
    ensures LineEnd !in tokens ==> Replay(b, executed, tokens).1 == executed
    decreases |tokens|
  {
    if tokens != [] {
      var ran := if tokens[0].LineEnd? then Submitted(b.value) else executed;
      ExecutedStays(Effect(b, tokens[0]), ran, tokens[1..]);
      ExecutedStays(Effect(b, tokens[0]), if tokens[0].LineEnd? then Submitted(b.value) else None, tokens[1..]);
    }
  }

  /** Enter, as CR or LF: the line is executed without the spaces around it, or nothing if that is nothing,
      and what follows is a line that is not known. */
  lemma EnterKey(left: Text, right: Text, ambiguous: bool, unit: U16, rest: Text)
    requires unit == 0x0D || unit == 0x0A
    ensures var r := Fed(At(left, right, ambiguous), [unit] + rest);
            && r.0 == Fed(At([], [], true), rest).0
            && (0x0D !in rest && 0x0A !in rest ==>
                  r.1 == if Trim(left + right) == [] then None else Some(Trim(left + right)))
  {
    EnterThen(At(left, right, ambiguous), unit, rest);
    ExecutedStays(At([], [], true), Submitted(left + right), Tokens(rest));
    if 0x0D !in rest && 0x0A !in rest {
      NoLineEnd(rest);
    }
  }

  lemma EnterThen(b: Buffer, unit: U16, rest: Text)
    requires unit == 0x0D || unit == 0x0A
    ensures Fed(b, [unit] + rest) == Replay(At([], [], true), Submitted(b.value), Tokens(rest))
  {
    UnitFirst(unit, rest);
    ReplayHead(b, None, [unit] + rest);
    assert At([], [], true) == Buffer([], 0, true);
    assert ([unit] + rest)[1..] == rest;
  }

  // ---------------------------------------------------------------- what makes the line unknown

  /** Tab, and every control unit with no meaning here, leave text and cursor but make the line unknown. */
  lemma ControlKey(b: Buffer, u: U16, rest: Text)
    requires u < 0x20 && u !in {0x01, 0x03, 0x05, 0x08, 0x0A, 0x0D, 0x15, 0x1B}
    ensures Fed(b, [u] + rest) == Fed(b.(ambiguous := true), rest)
  {
    UnitFirst(u, rest);
    TokenThen(b, [u], rest, if u == 0x09 then Tab else OtherControl);
  }

  /** So do the two bracketed-paste markers. */
  lemma PasteKey(b: Buffer, u: U16, rest: Text)
    requires u == 0x30 || u == 0x31
    ensures Fed(b, [0x1B, 0x5B, 0x32, 0x30, u, 0x7E] + rest) == Fed(b.(ambiguous := true), rest)
  {
    var key := [0x1B, 0x5B, 0x32, 0x30, u, 0x7E];
    var data := key + rest;
    assert data[0] == 0x1B && data[1] == 0x5B && data[2] == 0x32 && data[3] == 0x30 && data[4] == u && data[5] == 0x7E;
    TokenThen(b, key, rest, PasteMarker);
  }

  lemma {:induction false} ParametersRun(data: Text, from: nat, last: nat)
    requires from <= last <= |data| && (forall k :: from <= k < last ==> IsParameter(data[k])) && (last < |data| ==> !IsParameter(data[last]))
    ensures ParametersEnd(data, from) == last
    decreases last - from
  {
    if from < last {
      ParametersRun(data, from + 1, last);
    }
  }

  lemma {:induction false} IntermediatesRun(data: Text, from: nat, last: nat)
    requires from <= last <= |data| && (forall k :: from <= k < last ==> IsIntermediate(data[k])) && (last < |data| ==> !IsIntermediate(data[last]))
    ensures IntermediatesEnd(data, from) == last
    decreases last - from
  {
    if from < last {
      IntermediatesRun(data, from + 1, last);
    }
  }

  /** The control sequences that are read as keys: a letter alone, or 1, 3, 4, 200 or 201 with a tilde. */
  predicate IsKnown(parameters: Text, intermediates: Text, final: U16) {
    intermediates == []
    && ((parameters == [] && final in {0x41, 0x42, 0x43, 0x44, 0x46, 0x48})
        || (final == 0x7E && parameters in {[0x31], [0x33], [0x34], [0x32, 0x30, 0x30], [0x32, 0x30, 0x31]}))
  }

  /** The parts of a control sequence as they stand in the input. */
  predicate Stands(data: Text, parameters: Text, intermediates: Text, final: U16) {
    var n, q := |parameters|, 2 + |parameters| + |intermediates|;
    && q < |data| && StartsCsi(data) && data[q] == final && IsFinal(final)
    && (forall k :: 0 <= k < n ==> data[k + 2] == parameters[k] && IsParameter(parameters[k]))
    && (forall k :: 0 <= k < |intermediates| ==> data[k + 2 + n] == intermediates[k] && IsIntermediate(intermediates[k]))
  }

  lemma SequenceStands(parameters: Text, intermediates: Text, final: U16, rest: Text)
    requires (forall k :: 0 <= k < |parameters| ==> IsParameter(parameters[k])) && (forall k :: 0 <= k < |intermediates| ==> IsIntermediate(intermediates[k]))
    requires IsFinal(final)
    ensures Stands(CSI + parameters + intermediates + [final] + rest, parameters, intermediates, final)
  {
  }

  lemma SequenceLength(data: Text, parameters: Text, intermediates: Text, final: U16)
    requires Stands(data, parameters, intermediates, final)
    ensures ControlSequence(data) == Some(3 + |parameters| + |intermediates|)
  {
    var n, m := |parameters|, |intermediates|;
    forall k | 2 <= k < 2 + n ensures IsParameter(data[k]) {
      assert data[(k - 2) + 2] == parameters[k - 2];
    }
    forall k | 2 + n <= k < 2 + n + m ensures IsIntermediate(data[k]) {
      assert data[(k - 2 - n) + 2 + n] == intermediates[k - 2 - n];
    }
    ParametersRun(data, 2, 2 + n);
    IntermediatesRun(data, 2 + n, 2 + n + m);
  }

  /** Any other control sequence is swallowed whole, its printable units included, and makes the line unknown. */
  lemma UnknownSequence(b: Buffer, parameters: Text, intermediates: Text, final: U16, rest: Text)
    requires (forall k :: 0 <= k < |parameters| ==> IsParameter(parameters[k])) && (forall k :: 0 <= k < |intermediates| ==> IsIntermediate(intermediates[k]))
    requires IsFinal(final) && !IsKnown(parameters, intermediates, final)
    ensures Fed(b, CSI + parameters + intermediates + [final] + rest) == Fed(b.(ambiguous := true), rest)
  {
    var key := CSI + parameters + intermediates + [final];
    SequenceStands(parameters, intermediates, final, rest);
    SequenceLength(key + rest, parameters, intermediates, final);
    NotKnownFirst(key + rest, parameters, intermediates, final);
    TokenThen(b, key, rest, UnknownEscape);
  }

  lemma NextStands(data: Text, parameters: Text, intermediates: Text, final: U16, k: nat)
    requires Stands(data, parameters, intermediates, final) && k <= |parameters| && k + 2 < |data|
    ensures if k < |parameters| then data[k + 2] == parameters[k] && IsParameter(data[k + 2])
            else if intermediates != [] then k == |parameters| && IsIntermediate(data[k + 2])
            else data[k + 2] == final
  {
    assert intermediates != [] ==> data[|parameters| + 2] == intermediates[0];
  }

  lemma KnownStands(data: Text, parameters: Text, intermediates: Text, final: U16)
    requires Stands(data, parameters, intermediates, final)
    ensures StartsPaste(data) ==> IsKnown(parameters, intermediates, final)
    ensures StartsTilde(data, 0x31) || StartsTilde(data, 0x33) || StartsTilde(data, 0x34) ==> IsKnown(parameters, intermediates, final)
    ensures forall c :: c in {0x41, 0x42, 0x43, 0x44, 0x46, 0x48} && StartsKey(data, c) ==> IsKnown(parameters, intermediates, final)
  {
    assert |parameters| == 1 ==> parameters == [parameters[0]];
    assert |parameters| == 3 ==> parameters == [parameters[0], parameters[1], parameters[2]];
    NextStands(data, parameters, intermediates, final, 0);
    if |parameters| >= 1 && 3 < |data| {
      NextStands(data, parameters, intermediates, final, 1);
    }
    if |parameters| >= 2 && 4 < |data| {
      NextStands(data, parameters, intermediates, final, 2);
    }
    if |parameters| >= 3 && 5 < |data| {
      NextStands(data, parameters, intermediates, final, 3);
    }
  }

  lemma NotKnownFirst(data: Text, parameters: Text, intermediates: Text, final: U16)
    requires Stands(data, parameters, intermediates, final) && ControlSequence(data) == Some(3 + |parameters| + |intermediates|)
    requires !IsKnown(parameters, intermediates, final)
    ensures First(data) == (UnknownEscape, 3 + |parameters| + |intermediates|)
  {
    KnownStands(data, parameters, intermediates, final);
  }

  /** ESC O with any other unit that ends no line is swallowed too. */
  lemma UnknownSs3(b: Buffer, c: U16, rest: Text)
    requires c !in {0x41, 0x42, 0x43, 0x44, 0x46, 0x48} && c !in {0x0A, 0x0D, 0x2028, 0x2029}
    ensures Fed(b, [0x1B, 0x4F, c] + rest) == Fed(b.(ambiguous := true), rest)
  {
    var data := [0x1B, 0x4F, c] + rest;
    assert data[0] == 0x1B && data[1] == 0x4F && data[2] == c;
    TokenThen(b, [0x1B, 0x4F, c], rest, UnknownEscape);
  }

  /** An ESC that begins neither goes alone, and what follows is read as if it had not been there. */
  lemma LoneEscape(b: Buffer, rest: Text)
    requires rest == [] || (rest[0] != 0x5B && rest[0] != 0x4F)
    ensures Fed(b, [0x1B] + rest) == Fed(b.(ambiguous := true), rest)
  {
    var data := [0x1B] + rest;
    assert data[0] == 0x1B && (rest != [] ==> data[1] == rest[0]);
    TokenThen(b, [0x1B], rest, UnknownEscape);
  }

  /** The keys together: `ab`, left, `c` typed into an empty line make `acb` with the cursor behind the `c`. */
  lemma TypedThenLeft()
    ensures Fed(EMPTY_BUFFER, [0x61, 0x62, 0x1B, 0x5B, 0x44, 0x63]) == (Buffer([0x61, 0x63, 0x62], 2, false), None)
  {
    var left := [0x1B, 0x5B, 0x44];
    assert [0x61] + ([0x62] + (left + ([0x63] + []))) == [0x61, 0x62, 0x1B, 0x5B, 0x44, 0x63];
    assert At([], [], false) == EMPTY_BUFFER;
    PrintableKey([], [], false, 0x61, [0x62] + (left + ([0x63] + [])));
    assert [] + [0x61] == [0x61];
    PrintableKey([0x61], [], false, 0x62, left + ([0x63] + []));
    assert [0x62] + [] == [0x62];
    LeftKey([0x61], 0x62, [], false, left, [0x63] + []);
    PrintableKey([0x61], [0x62], false, 0x63, []);
    assert Tokens([]) == [] && At([0x61] + [0x63], [0x62], false) == Buffer([0x61, 0x63, 0x62], 2, false);
  }
}
