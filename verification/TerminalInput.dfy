/** Reconstruction of the command line from the bytes typed into a terminal
    (`applyTerminalInput` in `packages/shared-core/src/terminal-autocomplete.ts`).

    Text is a sequence of UTF-16 code units, as in the source. */
module TerminalInput {
  import opened Words
  import opened JsText

  datatype Buffer = Buffer(value: Text, cursor: nat, ambiguous: bool)

  const EMPTY_BUFFER := Buffer([], 0, false)

  /** What one input unit asks for. */
  datatype Token =
    | PasteMarker
    | CursorLeft
    | CursorRight
    | History
    | DeleteForward
    | Home
    | End
    | UnknownEscape
    | LineEnd
    | Backspace
    | KillLine          // Ctrl-U
    | Interrupt         // Ctrl-C
    | Tab
    | Insert(units: Text)
    | OtherControl

  // ---------------------------------------------------------------- scanning

  const ESC: U16 := 0x1B
  /** The input starts with `startsWith(prefix)` for the prefixes of the source, unit by unit. */
  predicate StartsEsc(data: Text) {
    1 <= |data| && data[0] == ESC
  }

  /** ESC [ */
  predicate StartsCsi(data: Text) {
    2 <= |data| && data[0] == ESC && data[1] == 0x5B
  }

  /** ESC O */
  predicate StartsSs3(data: Text) {
    2 <= |data| && data[0] == ESC && data[1] == 0x4F
  }

  /** ESC [ c or ESC O c */
  predicate StartsKey(data: Text, c: U16) {
    (StartsCsi(data) || StartsSs3(data)) && 3 <= |data| && data[2] == c
  }

  /** ESC [ c ~ */
  predicate StartsTilde(data: Text, c: U16) {
    StartsCsi(data) && 4 <= |data| && data[2] == c && data[3] == 0x7E
  }

  /** ESC [ 2 0 0 ~ or ESC [ 2 0 1 ~ */
  predicate StartsPaste(data: Text) {
    StartsCsi(data) && 6 <= |data| && data[2] == 0x32 && data[3] == 0x30 && (data[4] == 0x30 || data[4] == 0x31) && data[5] == 0x7E
  }

  predicate IsParameter(u: U16) {
    0x30 <= u <= 0x3F
  }

  predicate IsIntermediate(u: U16) {
    0x20 <= u <= 0x2F
  }

  predicate IsFinal(u: U16) {
    0x40 <= u <= 0x7E
  }

  function ParametersEnd(data: Text, from: nat): (r: nat)
    requires from <= |data|
    ensures from <= r <= |data|
    decreases |data| - from
  {
    if from < |data| && IsParameter(data[from]) then ParametersEnd(data, from + 1) else from
  }

  function IntermediatesEnd(data: Text, from: nat): (r: nat)
    requires from <= |data|
    ensures from <= r <= |data|
    decreases |data| - from
  {
    if from < |data| && IsIntermediate(data[from]) then IntermediatesEnd(data, from + 1) else from
  }

  /** Length of the control sequence at the start: parameter bytes, intermediate bytes, a final byte. */
  function ControlSequence(data: Text): (r: Option<nat>)
    ensures r.Some? ==> 3 <= r.value <= |data|
  {
    if !StartsCsi(data) then None
    else
      var q := IntermediatesEnd(data, ParametersEnd(data, 2));
      if q < |data| && IsFinal(data[q]) then Some(q + 1) else None
  }

  /** Length of the escape sequence of unknown meaning at the start. */
  function UnknownLength(data: Text): (n: nat)
    requires StartsEsc(data)
    ensures 1 <= n <= |data|
  {
    var csi := ControlSequence(data);
    if csi.Some? then csi.value
    else if StartsSs3(data) && 3 <= |data| && !IsLineTerminator(data[2]) then 3
    else 1
  }

  /** What the dot of a regular expression does not match. */
  predicate IsLineTerminator(u: U16) {
    u == 0x0A || u == 0x0D || u == 0x2028 || u == 0x2029
  }

  predicate IsPair(data: Text) {
    2 <= |data| && 0xD800 <= data[0] <= 0xDBFF && 0xDC00 <= data[1] <= 0xDFFF
  }

  function ControlToken(u: U16): Token {
    if u == 0x0D || u == 0x0A then LineEnd
    else if u == 0x7F || u == 0x08 then Backspace
    else if u == 0x01 then Home
    else if u == 0x05 then End
    else if u == 0x15 then KillLine
    else if u == 0x03 then Interrupt
    else if u == 0x09 then Tab
    else if u >= 0x20 then Insert([u])
    else OtherControl
  }

  /** The token at the start of the input, and its length in code units. */
  function First(data: Text): (r: (Token, nat))
    requires data != []
    ensures 1 <= r.1 <= |data|
  {
    if StartsPaste(data) then (PasteMarker, 6)
    else if StartsKey(data, 0x44) then (CursorLeft, 3)
    else if StartsKey(data, 0x43) then (CursorRight, 3)
    else if StartsKey(data, 0x41) || StartsKey(data, 0x42) then (History, 3)
    else if StartsTilde(data, 0x33) then (DeleteForward, 4)
    else if StartsKey(data, 0x48) then (Home, 3)
    else if StartsTilde(data, 0x31) then (Home, 4)
    else if StartsKey(data, 0x46) then (End, 3)
    else if StartsTilde(data, 0x34) then (End, 4)
    else if StartsEsc(data) then (UnknownEscape, UnknownLength(data))
    else if IsPair(data) then (Insert(data[..2]), 2)
    else (ControlToken(data[0]), 1)
  }

  function Tokens(data: Text): seq<Token>
    decreases |data|
  {
    if data == [] then []
    else [First(data).0] + Tokens(data[First(data).1..])
  }

  // ---------------------------------------------------------------- the effect of a token

  /** `slice(0, n)` and `slice(n)`. */
  function Before(s: Text, n: nat): Text {
    s[..Min(n, |s|)]
  }

  function From(s: Text, n: nat): Text {
    s[Min(n, |s|)..]
  }

  /** The command a line end submits: nothing when the line is blank. */
  function Submitted(value: Text): Option<Text> {
    if Trim(value) == [] then None else Some(Trim(value))
  }

  function Effect(b: Buffer, t: Token): Buffer {
    match t
    case PasteMarker => b.(ambiguous := true)
    case CursorLeft => b.(cursor := Max(0, b.cursor - 1))
    case CursorRight => b.(cursor := Min(|b.value|, b.cursor + 1))
    case History => Buffer([], 0, true)
    case DeleteForward =>
      if b.cursor < |b.value| then b.(value := Before(b.value, b.cursor) + From(b.value, b.cursor + 1)) else b
    case Home => b.(cursor := 0)
    case End => b.(cursor := |b.value|)
    case UnknownEscape => b.(ambiguous := true)
    case LineEnd => Buffer([], 0, true)
    case Backspace =>
      if b.cursor > 0 then b.(value := Before(b.value, b.cursor - 1) + From(b.value, b.cursor), cursor := b.cursor - 1) else b
    case KillLine => EMPTY_BUFFER
    case Interrupt => Buffer([], 0, true)
    case Tab => b.(ambiguous := true)
    case Insert(units) =>
      b.(value := Before(b.value, b.cursor) + units + From(b.value, b.cursor), cursor := b.cursor + |units|)
    case OtherControl => b.(ambiguous := true)
  }

  /** Buffer and last executed command after a run of tokens. */
  function Replay(b: Buffer, executed: Option<Text>, tokens: seq<Token>): (Buffer, Option<Text>)
    decreases |tokens|
  {
    if tokens == [] then (b, executed)
    else
      Replay(Effect(b, tokens[0]), if tokens[0].LineEnd? then Submitted(b.value) else executed, tokens[1..])
  }

  /** Buffer and executed command after input. */
  function Fed(b: Buffer, data: Text): (Buffer, Option<Text>) {
    Replay(b, None, Tokens(data))
  }

  // ---------------------------------------------------------------- the source's loop

  /** The chain of escape sequences; `length` is 0 when the input does not start with one. */
  method ApplyEscape(b: Buffer, rest: Text) returns (next: Buffer, length: nat)
    requires rest != []
    ensures if StartsEsc(rest) then length == First(rest).1 && next == Effect(b, First(rest).0) && !First(rest).0.LineEnd?
            else length == 0 && next == b
  {
    next := b;
    if StartsPaste(rest) {
      next := next.(ambiguous := true);
      return next, 6;
    }
    if StartsKey(rest, 0x44) {
      next := next.(cursor := Max(0, next.cursor - 1));
      return next, 3;
    }
    if StartsKey(rest, 0x43) {
      next := next.(cursor := Min(|next.value|, next.cursor + 1));
      return next, 3;
    }
    if StartsKey(rest, 0x41) || StartsKey(rest, 0x42) {
      return Buffer([], 0, true), 3;
    }
    if StartsTilde(rest, 0x33) {
      if next.cursor < |next.value| {
        next := next.(value := Before(next.value, next.cursor) + From(next.value, next.cursor + 1));
      }
      return next, 4;
    }
    if StartsKey(rest, 0x48) || StartsTilde(rest, 0x31) {
      next := next.(cursor := 0);
      return next, if StartsTilde(rest, 0x31) then 4 else 3;
    }
    if StartsKey(rest, 0x46) || StartsTilde(rest, 0x34) {
      next := next.(cursor := |next.value|);
      return next, if StartsTilde(rest, 0x34) then 4 else 3;
    }
    if StartsEsc(rest) {
      next := next.(ambiguous := true);
      return next, UnknownLength(rest);
    }
    return next, 0;
  }

  lemma FirstCharacter(data: Text)
    requires data != [] && !StartsEsc(data)
    ensures First(data) == if IsPair(data) then (Insert(data[..2]), 2) else (ControlToken(data[0]), 1)
  {
    assert data[0] != ESC;
  }

  /** The switch on a single code unit. */
  method ApplyUnit(b: Buffer, ran: Option<Text>, unit: U16) returns (next: Buffer, executed: Option<Text>)
    ensures next == Effect(b, ControlToken(unit))
    ensures executed == if ControlToken(unit).LineEnd? then Submitted(b.value) else ran
  {
    next, executed := b, ran;
    if unit == 0x0D || unit == 0x0A {
      executed := Submitted(next.value);
      next := Buffer([], 0, true);
    } else if unit == 0x7F || unit == 0x08 {
      if next.cursor > 0 {
        next := next.(value := Before(next.value, next.cursor - 1) + From(next.value, next.cursor), cursor := next.cursor - 1);
      }
    } else if unit == 0x01 {
      next := next.(cursor := 0);
    } else if unit == 0x05 {
      next := next.(cursor := |next.value|);
    } else if unit == 0x15 {
      next := EMPTY_BUFFER;
    } else if unit == 0x03 {
      next := Buffer([], 0, true);
    } else if unit == 0x09 {
      next := next.(ambiguous := true);
    } else if unit >= 0x20 && unit != 0x7F {
      next := next.(value := Before(next.value, next.cursor) + [unit] + From(next.value, next.cursor), cursor := next.cursor + 1);
    } else {
      next := next.(ambiguous := true);
    }
  }

  /** The switch on a character. */
  method ApplyCharacter(b: Buffer, ran: Option<Text>, rest: Text) returns (next: Buffer, executed: Option<Text>, length: nat)
    requires rest != [] && !StartsEsc(rest)
    ensures length == First(rest).1 && next == Effect(b, First(rest).0)
    ensures executed == if First(rest).0.LineEnd? then Submitted(b.value) else ran
  {
    FirstCharacter(rest);
    if IsPair(rest) {
      next := b.(value := Before(b.value, b.cursor) + rest[..2] + From(b.value, b.cursor), cursor := b.cursor + 2);
      return next, ran, 2;
    }
    next, executed := ApplyUnit(b, ran, rest[0]);
    length := 1;
  }

  lemma ReplayHead(b: Buffer, executed: Option<Text>, data: Text)
    requires data != []
    ensures var (token, n) := First(data);
            (Replay(b, executed, Tokens(data))
             == Replay(Effect(b, token), if token.LineEnd? then Submitted(b.value) else executed, Tokens(data[n..])))
  {
    var (token, n) := First(data);
    assert ([token] + Tokens(data[n..]))[1..] == Tokens(data[n..]);
  }

  /** One round of the loop. */
  method ApplyNext(b: Buffer, ran: Option<Text>, rest: Text) returns (next: Buffer, executed: Option<Text>, length: nat)
    requires rest != []
    ensures 1 <= length <= |rest|
    ensures Replay(next, executed, Tokens(rest[length..])) == Replay(b, ran, Tokens(rest))
  {
    ReplayHead(b, ran, rest);
    executed := ran;
    next, length := ApplyEscape(b, rest);
    if length == 0 {
      next, executed, length := ApplyCharacter(next, executed, rest);
    }
  }

  method ApplyTerminalInput(state: Buffer, data: Text) returns (next: Buffer, executed: Option<Text>)
    ensures (next, executed) == Fed(state, data)
  {
    next, executed := state, None;
    var index, rest := 0, data;
    while index < |data|
      invariant 0 <= index <= |data| && rest == data[index..]
      invariant Replay(next, executed, Tokens(rest)) == Replay(state, None, Tokens(data))
    {
      var length;
      next, executed, length := ApplyNext(next, executed, rest);
      rest := rest[length..];
      index := index + length;
    }
  }

  // ---------------------------------------------------------------- a two-sided reference editor

  /** The line as what is left of the cursor and what is right of it. */
  datatype Line = Line(left: Text, right: Text)

  predicate IsEdit(t: Token) {
    t.CursorLeft? || t.CursorRight? || t.DeleteForward? || t.Home? || t.End? || t.Backspace? || t.Insert?
  }

  function Edited(e: Line, t: Token): Line
    requires IsEdit(t)
  {
    match t
    case CursorLeft => if e.left == [] then e else Line(e.left[..|e.left| - 1], [e.left[|e.left| - 1]] + e.right)
    case CursorRight => if e.right == [] then e else Line(e.left + [e.right[0]], e.right[1..])
    case DeleteForward => if e.right == [] then e else e.(right := e.right[1..])
    case Home => Line([], e.left + e.right)
    case End => Line(e.left + e.right, [])
    case Backspace => if e.left == [] then e else e.(left := e.left[..|e.left| - 1])
    case Insert(units) => e.(left := e.left + units)
  }

  function EditedAll(e: Line, tokens: seq<Token>): Line
    requires forall k :: 0 <= k < |tokens| ==> IsEdit(tokens[k])
    decreases |tokens|
  {
    if tokens == [] then e
    else Edited(EditedAll(e, tokens[..|tokens| - 1]), tokens[|tokens| - 1])
  }

  predicate InRange(b: Buffer) {
    b.cursor <= |b.value|
  }

  function Sides(b: Buffer): Line
    requires InRange(b)
  {
    Line(b.value[..b.cursor], b.value[b.cursor..])
  }

  /** The tokens typed after the last Ctrl-U, all of them if there was none. */
  function SinceKill(tokens: seq<Token>): (r: seq<Token>)
    decreases |tokens|
  {
    if tokens == [] || tokens[|tokens| - 1].KillLine? then []
    else SinceKill(tokens[..|tokens| - 1]) + [tokens[|tokens| - 1]]
  }

  /** What the line was when those tokens began. */
  function LineThen(b: Buffer, tokens: seq<Token>): Line
    requires InRange(b)
  {
    if KillLine in tokens then Line([], []) else Sides(b)
  }

  /** No token since the last Ctrl-U does anything but edit, and the line was known when they began. */
  ghost predicate Reconstructible(b: Buffer, tokens: seq<Token>) {
    && (KillLine in tokens || !b.ambiguous)
    && forall k :: 0 <= k < |SinceKill(tokens)| ==> IsEdit(SinceKill(tokens)[k])
  }

  lemma {:induction false} ReplayThen(b: Buffer, executed: Option<Text>, tokens: seq<Token>, more: seq<Token>)
    ensures var (mid, ran) := Replay(b, executed, tokens);
            Replay(b, executed, tokens + more) == Replay(mid, ran, more)
    decreases |tokens|
  {
    if tokens == [] {
      assert tokens + more == more;
    } else {
      assert (tokens + more)[1..] == tokens[1..] + more;
      ReplayThen(Effect(b, tokens[0]), if tokens[0].LineEnd? then Submitted(b.value) else executed, tokens[1..], more);
    }
  }

  lemma LeftFollows(b: Buffer)
    requires InRange(b) && b.cursor > 0
    ensures Sides(Effect(b, CursorLeft)) == Edited(Sides(b), CursorLeft)
  {
    assert b.value[b.cursor - 1..] == [b.value[b.cursor - 1]] + b.value[b.cursor..];
  }

  lemma BackspaceFollows(b: Buffer)
    requires InRange(b) && b.cursor > 0
    ensures InRange(Effect(b, Backspace)) && Sides(Effect(b, Backspace)) == Edited(Sides(b), Backspace)
  {
    var left, right := b.value[..b.cursor - 1], b.value[b.cursor..];
    assert Effect(b, Backspace).value == left + right;
    assert (left + right)[..|left|] == left && (left + right)[|left|..] == right;
  }

  lemma DeleteFollows(b: Buffer)
    requires b.cursor < |b.value|
    ensures InRange(Effect(b, DeleteForward)) && Sides(Effect(b, DeleteForward)) == Edited(Sides(b), DeleteForward)
  {
    var left, right := b.value[..b.cursor], b.value[b.cursor + 1..];
    assert Effect(b, DeleteForward).value == left + right;
    assert (left + right)[..|left|] == left && (left + right)[|left|..] == right;
  }

  lemma InsertFollows(b: Buffer, units: Text)
    requires InRange(b)
    ensures InRange(Effect(b, Insert(units))) && Sides(Effect(b, Insert(units))) == Edited(Sides(b), Insert(units))
  {
    var left, right := b.value[..b.cursor] + units, b.value[b.cursor..];
    assert Effect(b, Insert(units)).value == left + right;
    assert (left + right)[..|left|] == left && (left + right)[|left|..] == right;
  }

  /** One editing token: the flat buffer follows the two-sided line. */
  lemma EditFollows(b: Buffer, t: Token)
    requires InRange(b) && IsEdit(t)
    ensures var after := Effect(b, t);
            InRange(after) && after.ambiguous == b.ambiguous && Sides(after) == Edited(Sides(b), t)
  {
    assert b.value == b.value[..b.cursor] + b.value[b.cursor..];
    match t {
      case CursorLeft => if b.cursor > 0 { LeftFollows(b); }
      case DeleteForward => if b.cursor < |b.value| { DeleteFollows(b); }
      case Backspace => if b.cursor > 0 { BackspaceFollows(b); }
      case Insert(units) => InsertFollows(b, units);
      case _ =>
    }
  }

  /** After any run of tokens the cursor is inside the buffer, and the buffer is reported exact precisely
      when it can be reconstructed; then it is what the reference editor makes of the tokens typed since
      the last Ctrl-U. */
  lemma {:induction false} ReplayIsReferenceEditor(b: Buffer, executed: Option<Text>, tokens: seq<Token>)
    requires InRange(b)
    ensures var after := Replay(b, executed, tokens).0;
            && InRange(after)
            && (!after.ambiguous <==> Reconstructible(b, tokens))
            && (!after.ambiguous ==> Sides(after) == EditedAll(LineThen(b, tokens), SinceKill(tokens)))
    decreases |tokens|
  {
    if tokens != [] {
      var init, t := tokens[..|tokens| - 1], tokens[|tokens| - 1];
      assert tokens == init + [t];
      ReplayIsReferenceEditor(b, executed, init);
      ReplayThen(b, executed, init, [t]);
      var mid := Replay(b, executed, init).0;
      assert Replay(b, executed, tokens).0 == Effect(mid, t);
      LastToken(b, init, t, mid);
    }
  }

  lemma LastToken(b: Buffer, init: seq<Token>, t: Token, mid: Buffer)
    requires InRange(b) && InRange(mid)
    requires !mid.ambiguous <==> Reconstructible(b, init)
    requires !mid.ambiguous ==> Sides(mid) == EditedAll(LineThen(b, init), SinceKill(init))
    ensures var tokens := init + [t];
            var after := Effect(mid, t);
            && InRange(after)
            && (!after.ambiguous <==> Reconstructible(b, tokens))
            && (!after.ambiguous ==> Sides(after) == EditedAll(LineThen(b, tokens), SinceKill(tokens)))
  {
    var tokens := init + [t];
    assert tokens[..|tokens| - 1] == init;
    if t.KillLine? {
      assert SinceKill(tokens) == [];
    } else {
      var since := SinceKill(init) + [t];
      assert SinceKill(tokens) == since;
      assert since[..|since| - 1] == SinceKill(init);
      assert since[|since| - 1] == t;
      if IsEdit(t) {
        EditFollows(mid, t);
        if Reconstructible(b, tokens) {
          forall k | 0 <= k < |SinceKill(init)| ensures IsEdit(SinceKill(init)[k]) {
            assert since[k] == SinceKill(init)[k];
          }
        }
      }
    }
  }
}
