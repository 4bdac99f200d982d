/** The command form of an address, `ssh -p 2222 user@host`: how quotes group its words, and what its options
    mean (`splitCommandTokens` and `parseQuickSshCommand` in `packages/shared-core/src/quick-connect.ts`). */
module QuickSshCommands {
  import opened Words
  import opened JsText
  import opened QuickSsh

  // ---------------------------------------------------------------- words and quotes

  /** A part of a word: as it is, or between two quotes of one kind. */
  datatype Piece = Bare(text: Text) | Quoted(mark: U16, text: Text)

  predicate IsMark(c: U16) {
    c == QUOTE || c == APOSTROPHE
  }

  predicate GoodPiece(p: Piece) {
    match p
    case Bare(text) => !HasSpace(text) && forall k :: 0 <= k < |text| ==> !IsMark(text[k])
    case Quoted(mark, text) => IsMark(mark) && mark !in text
  }

  predicate GoodWord(word: seq<Piece>) {
    Meaning(word) != [] && forall k :: 0 <= k < |word| ==> GoodPiece(word[k])
  }

  /** What is typed for a piece, and for a word. */
  function Typed(p: Piece): Text {
    match p
    case Bare(text) => text
    case Quoted(mark, text) => [mark] + text + [mark]
  }

  function Spelling(word: seq<Piece>): Text {
    if word == [] then [] else Typed(word[0]) + Spelling(word[1..])
  }

  /** What the word is. */
  function Meaning(word: seq<Piece>): Text {
    if word == [] then [] else word[0].text + Meaning(word[1..])
  }

  /** A word, and the spaces before it. */
  datatype Item = Item(gap: Text, word: seq<Piece>)

  /** Only the first word may have no space before it. */
  predicate GoodLine(items: seq<Item>) {
    forall k :: 0 <= k < |items| ==> AllSpaces(items[k].gap) && GoodWord(items[k].word) && (k > 0 ==> items[k].gap != [])
  }

  function Line(items: seq<Item>): Text {
    if items == [] then [] else items[0].gap + Spelling(items[0].word) + Line(items[1..])
  }

  function Meanings(items: seq<Item>): (r: seq<Text>)
    ensures |r| == |items| && forall k :: 0 <= k < |r| ==> r[k] == Meaning(items[k].word)
  {
    seq(|items|, k requires 0 <= k < |items| => Meaning(items[k].word))
  }

  // ---------------------------------------------------------------- the scan, from any state

  function ScanFrom(s: Scan, input: Text): Scan
    decreases |input|
  {
    if input == [] then s else ScanFrom(Scanned(s, input[0]), input[1..])
  }

  lemma {:induction false} ScanSnoc(s: Scan, input: Text, c: U16)
    ensures ScanFrom(s, input + [c]) == Scanned(ScanFrom(s, input), c)
    decreases |input|
  {
    if input == [] {
      assert [c][1..] == [];
    } else {
      assert (input + [c])[1..] == input[1..] + [c];
      ScanSnoc(Scanned(s, input[0]), input[1..], c);
    }
  }

  lemma {:induction false} ScanIs(input: Text)
    ensures ScannedAll(input) == ScanFrom(Scan([], [], None), input)
    decreases |input|
  {
    if input != [] {
      var init, c := input[..|input| - 1], input[|input| - 1];
      assert input == init + [c];
      ScanIs(init);
      ScanSnoc(Scan([], [], None), init, c);
    }
  }

  lemma {:induction false} ScanConcat(s: Scan, a: Text, b: Text)
    ensures ScanFrom(s, a + b) == ScanFrom(ScanFrom(s, a), b)
    decreases |a|
  {
    if a == [] {
      assert a + b == b;
    } else {
      assert (a + b)[1..] == a[1..] + b;
      ScanConcat(Scanned(s, a[0]), a[1..], b);
    }
  }

  lemma {:induction false} ScanBare(tokens: seq<Text>, current: Text, text: Text)
    requires GoodPiece(Bare(text))
    ensures ScanFrom(Scan(tokens, current, None), text) == Scan(tokens, current + text, None)
    decreases |text|
  {
    if text != [] {
      assert !IsSpace(text[0]) && !IsMark(text[0]);
      assert current + [text[0]] + text[1..] == current + text;
      ScanBare(tokens, current + [text[0]], text[1..]);
    }
  }

  lemma {:induction false} ScanInside(tokens: seq<Text>, current: Text, mark: U16, text: Text)
    requires IsMark(mark) && mark !in text
    ensures ScanFrom(Scan(tokens, current, Some(mark)), text) == Scan(tokens, current + text, Some(mark))
    decreases |text|
  {
    if text != [] {
      assert text[0] != mark;
      assert current + [text[0]] + text[1..] == current + text;
      ScanInside(tokens, current + [text[0]], mark, text[1..]);
    }
  }

  lemma ScanPiece(tokens: seq<Text>, current: Text, p: Piece)
    requires GoodPiece(p)
    ensures ScanFrom(Scan(tokens, current, None), Typed(p)) == Scan(tokens, current + p.text, None)
  {
    match p {
      case Bare(text) => ScanBare(tokens, current, text);
      case Quoted(mark, text) =>
        assert ([mark] + text)[1..] == text;
        assert Scanned(Scan(tokens, current, None), mark) == Scan(tokens, current, Some(mark)) by {
          assert !IsSpace(mark);
        }
        ScanInside(tokens, current, mark, text);
        ScanSnoc(Scan(tokens, current, None), [mark] + text, mark);
    }
  }

  lemma Joined(a: Text, b: Text, c: Text)
    ensures (a + b) + c == a + (b + c)
  {
  }

  lemma {:induction false} ScanWord(tokens: seq<Text>, current: Text, word: seq<Piece>)
    requires forall k :: 0 <= k < |word| ==> GoodPiece(word[k])
    ensures ScanFrom(Scan(tokens, current, None), Spelling(word)) == Scan(tokens, current + Meaning(word), None)
    decreases |word|
  {
    if word != [] {
      ScanConcat(Scan(tokens, current, None), Typed(word[0]), Spelling(word[1..]));
      ScanPiece(tokens, current, word[0]);
      ScanWord(tokens, current + word[0].text, word[1..]);
      Joined(current, word[0].text, Meaning(word[1..]));
    } else {
      assert current + [] == current;
    }
  }

  lemma {:induction false} ScanGap(s: Scan, gap: Text)
    requires AllSpaces(gap) && s.quote.None?
    ensures ScanFrom(s, gap) == if gap == [] then s else Flushed(s)
    decreases |gap|
  {
    if gap != [] {
      assert IsSpace(gap[0]);
      ScanGap(Flushed(s), gap[1..]);
    }
  }

  lemma ScanItem(s: Scan, i: Item)
    requires s.quote.None? && AllSpaces(i.gap) && GoodWord(i.word) && (i.gap == [] ==> s.current == [])
    ensures ScanFrom(s, i.gap + Spelling(i.word)) == Scan(Flushed(s).tokens, Meaning(i.word), None)
  {
    var begun := Flushed(s);
    ScanConcat(s, i.gap, Spelling(i.word));
    ScanGap(s, i.gap);
    assert ScanFrom(s, i.gap) == Scan(begun.tokens, [], None);
    ScanWord(begun.tokens, [], i.word);
    assert [] + Meaning(i.word) == Meaning(i.word);
  }

  lemma MeaningsCons(items: seq<Item>)
    requires items != []
    ensures Meanings(items) == [Meaning(items[0].word)] + Meanings(items[1..])
  {
  }

  lemma Regrouped(a: seq<Text>, x: Text, b: seq<Text>)
    ensures (a + [x]) + b == a + ([x] + b)
  {
  }

  /** Scanning a line of words from a state between words adds exactly those words. */
  lemma {:induction false} ScanLine(s: Scan, items: seq<Item>)
    requires s.quote.None? && GoodLine(items) && (items != [] && items[0].gap == [] ==> s.current == [])
    ensures ScanFrom(s, Line(items)).quote.None?
    ensures Flushed(ScanFrom(s, Line(items))).tokens == Flushed(s).tokens + Meanings(items)
    decreases |items|
  {
    if items == [] {
      assert Flushed(s).tokens + Meanings(items) == Flushed(s).tokens;
    } else {
      var i, rest := items[0], items[1..];
      ScanConcat(s, i.gap + Spelling(i.word), Line(rest));
      ScanItem(s, i);
      var next := Scan(Flushed(s).tokens, Meaning(i.word), None);
      ScanLine(next, rest);
      MeaningsCons(items);
      Regrouped(Flushed(s).tokens, Meaning(i.word), Meanings(rest));
    }
  }

  // ---------------------------------------------------------------- trimming changes no word

  lemma LeadingSpace(input: Text)
    requires input != [] && IsSpace(input[0])
    ensures Tokens(input) == Tokens(input[1..])
  {
    ScanIs(input);
    ScanIs(input[1..]);
  }

  lemma TrailingSpace(input: Text)
    requires input != [] && IsSpace(input[|input| - 1])
    ensures Tokens(input) == Tokens(input[..|input| - 1])
  {
  }

  lemma {:induction false} TrimKeepsTokens(input: Text)
    ensures Tokens(Trim(input)) == Tokens(input)
    decreases |input|
  {
    if input != [] && IsSpace(input[0]) {
      LeadingSpace(input);
      TrimKeepsTokens(input[1..]);
    } else if input != [] && IsSpace(input[|input| - 1]) {
      TrailingSpace(input);
      TrimKeepsTokens(input[..|input| - 1]);
    }
  }

  /** Typed with any spaces between and around them, and with any parts of them in quotes, words are read
      as what they are. */
  lemma WordsRead(items: seq<Item>, after: Text)
    requires GoodLine(items) && AllSpaces(after)
    ensures Tokens(Trim(Line(items) + after)) == Meanings(items)
  {
    var start := Scan([], [], None);
    TrimKeepsTokens(Line(items) + after);
    ScanIs(Line(items) + after);
    ScanConcat(start, Line(items), after);
    ScanLine(start, items);
    ScanGap(ScanFrom(start, Line(items)), after);
    assert [] + Meanings(items) == Meanings(items);
  }

  // ---------------------------------------------------------------- the options

  /** An argument of the command: a port, as `-p N` or `-pN`, or where to connect to. */
  datatype Argument = Apart(port: Text) | Together(port: Text) | Target(target: Text)

  /** The text of a port: one to five digits that make a number a port can be. */
  predicate IsPort(s: Text) {
    1 <= |s| <= 5 && AllDigits(s) && 1 <= Number(s) <= 65535
  }

  predicate GoodArgument(a: Argument) {
    match a
    case Apart(port) => IsPort(port)
    case Together(port) => IsPort(port)
    case Target(target) => target != [] && target[0] != DASH
  }

  predicate GoodArguments(args: seq<Argument>) {
    forall k :: 0 <= k < |args| ==> GoodArgument(args[k])
  }

  function WordsOf(a: Argument): seq<Text> {
    match a
    case Apart(port) => [[DASH, LETTER_P], port]
    case Together(port) => [[DASH, LETTER_P] + port]
    case Target(target) => [target]
  }

  function AllWords(args: seq<Argument>): seq<Text> {
    if args == [] then [] else WordsOf(args[0]) + AllWords(args[1..])
  }

  function Targets(args: seq<Argument>): seq<Text> {
    if args == [] then [] else (if args[0].Target? then [args[0].target] else []) + Targets(args[1..])
  }

  /** The port given last, wherever it stands. */
  function LastPort(args: seq<Argument>, otherwise: Option<int>): Option<int> {
    if args == [] then otherwise
    else LastPort(args[1..], if !args[0].Target? && AllDigits(args[0].port) then Some(Number(args[0].port)) else otherwise)
  }

  /** What the loop over the words makes of good arguments: a second target is refused, the last port counts. */
  lemma {:induction false} OptionsRead(args: seq<Argument>, o: Options)
    requires GoodArguments(args)
    ensures var found := (if o.target.Some? then [o.target.value] else []) + Targets(args);
            ReadOptions(AllWords(args), o)
            == if |found| > 1 then None
               else Some(Options(LastPort(args, o.port), if found == [] then None else Some(found[0])))
    decreases |args|
  {
    if args == [] {
    } else {
      var a, rest := args[0], args[1..];
      assert GoodArgument(a);
      FirstArgument(a, AllWords(rest), o);
      match a {
        case Apart(port) => OptionsRead(rest, o.(port := Some(Number(port))));
        case Together(port) => OptionsRead(rest, o.(port := Some(Number(port))));
        case Target(target) =>
          if o.target.None? {
            OptionsRead(rest, o.(target := Some(target)));
          }
      }
    }
  }

  lemma FirstArgument(a: Argument, words: seq<Text>, o: Options)
    requires GoodArgument(a)
    ensures ReadOptions(WordsOf(a) + words, o)
         == if !a.Target? then ReadOptions(words, o.(port := Some(Number(a.port))))
            else if o.target.Some? then None
            else ReadOptions(words, o.(target := Some(a.target)))
  {
    var all := WordsOf(a) + words;
    match a {
      case Apart(port) => assert all[1] == port && all[2..] == words;
      case Together(port) =>
        assert all[0][2..] == port && all[1..] == words;
      case Target(target) => assert all[1..] == words;
    }
  }

  // ---------------------------------------------------------------- where to connect to

  /** The host part of a target in each of its forms. */
  lemma HostForms(host: Text, port: Text)
    requires IsName(host) && IsPort(port)
    ensures COLON !in host && host[0] != OPEN ==> HostPort(host) == Some((host, 22)) && HostPort(host + [COLON] + port) == Some((host, Number(port)))
    ensures CLOSE !in host ==>
              && HostPort([OPEN] + host + [CLOSE]) == Some((host, 22))
              && HostPort([OPEN] + host + [CLOSE, COLON] + port) == Some((host, Number(port)))
    ensures IndexOf(host, COLON) != LastIndexOf(host, COLON) && host[0] != OPEN ==> HostPort(host) == Some((host, 22))
  {
    CheckedName(host, 22);
    CheckedName(host, Number(port));
    if COLON !in host && host[0] != OPEN {
      PlainForms(host, port);
    }
    if CLOSE !in host {
      BracketForms(host, port);
    }
  }

  lemma PlainForms(host: Text, port: Text)
    requires IsName(host) && IsPort(port) && COLON !in host && host[0] != OPEN
    ensures HostPort(host + [COLON] + port) == Some((host, Number(port)))
  {
    var s := host + [COLON] + port;
    CheckedName(host, Number(port));
    IndexIs(s, COLON, |host|);
    LastIndexIs(s, COLON, |host|);
    assert s[..|host|] == host && s[|host| + 1..] == port;
  }

  lemma BracketForms(host: Text, port: Text)
    requires IsName(host) && IsPort(port) && CLOSE !in host
    ensures HostPort([OPEN] + host + [CLOSE]) == Some((host, 22))
    ensures HostPort([OPEN] + host + [CLOSE, COLON] + port) == Some((host, Number(port)))
  {
    var s, t := [OPEN] + host + [CLOSE], [OPEN] + host + [CLOSE, COLON] + port;
    CheckedName(host, 22);
    CheckedName(host, Number(port));
    IndexIs(s, CLOSE, |host| + 1);
    IndexIs(t, CLOSE, |host| + 1);
    assert s[1..|host| + 1] == host && s[|host| + 2..] == [];
    assert t[1..|host| + 1] == host && t[|host| + 2..] == [COLON] + port && ([COLON] + port)[1..] == port;
  }

  lemma {:induction false} TargetIsAWord(args: seq<Argument>)
    requires Targets(args) != []
    ensures AllWords(args) != []
    decreases |args|
  {
    if !args[0].Target? {
      assert WordsOf(args[0]) != [];
    }
  }

  lemma PlaceReads(port: Option<int>, username: Text, place: Text)
    requires IsName(username) && AT !in place && HostPort(place).Some?
    ensures AddressOf(port, username + [AT] + place)
         == Some(Address(username, HostPort(place).value.0, if port.Some? then port.value else HostPort(place).value.1))
  {
    var target := username + [AT] + place;
    IndexIs(target, AT, |username|);
    LastIndexIs(target, AT, |username|);
    assert target[..|username|] == username && target[|username| + 1..] == place;
    TrimNothing(username);
  }

  lemma ArgumentsRead(args: seq<Argument>, target: Text)
    requires GoodArguments(args) && Targets(args) == [target]
    ensures AllWords(args) != [] && ReadOptions(AllWords(args), Options(None, None)) == Some(Options(LastPort(args, None), Some(target)))
  {
    OptionsRead(args, Options(None, None));
    assert [] + Targets(args) == Targets(args);
    TargetIsAWord(args);
  }

  /** However the words of `ssh` and its arguments are spaced and quoted, the command reads as the user and
      host of its one target and, as the port, the last one given as an option, else the one of the target. */
  lemma CommandReads(items: seq<Item>, after: Text, args: seq<Argument>, username: Text, place: Text)
    requires GoodLine(items) && AllSpaces(after) && Meanings(items) == [SSH] + AllWords(args)
    requires GoodArguments(args) && Targets(args) == [username + [AT] + place]
    requires IsName(username) && AT !in place && HostPort(place).Some?
    ensures var port := LastPort(args, None);
            ParseInput(Line(items) + after)
            == Some(Address(username, HostPort(place).value.0, if port.Some? then port.value else HostPort(place).value.1))
  {
    WordsRead(items, after);
    ArgumentsRead(args, username + [AT] + place);
    PlaceReads(LastPort(args, None), username, place);
    assert ([SSH] + AllWords(args))[1..] == AllWords(args);
  }

  /** An address without `ssh` before it, with any spaces around it. */
  lemma AddressReads(before: Text, username: Text, place: Text, after: Text)
    requires AllSpaces(before) && AllSpaces(after) && IsName(username) && place != [] && !HasSpace(place) && AT !in place
    ensures ParseInput(before + (username + [AT] + place) + after)
         == if HostPort(place).None? then None else Some(Address(username, HostPort(place).value.0, HostPort(place).value.1))
  {
    var s := username + [AT] + place;
    NoSpaceInAddress(username, place);
    TrimSurrounded(before, s, after);
    TrimNothing(s);
    IndexIs(s, AT, |username|);
    LastIndexIs(s, AT, |username|);
    assert s[..|username|] == username && s[|username| + 1..] == place;
    InputReads(s, username, place);
    assert ParseCommand(before + s + after) == ParseCommand(s) && ParseTarget(before + s + after) == ParseTarget(s);
  }

  lemma NoSpaceInAddress(username: Text, place: Text)
    requires IsName(username) && place != [] && !HasSpace(place)
    ensures var s := username + [AT] + place; !HasSpace(s) && !IsSpace(s[0]) && !IsSpace(s[|s| - 1])
  {
    var s := username + [AT] + place;
    assert !HasSpace(username);
    forall k | 0 <= k < |s| ensures !IsSpace(s[k]) {
      if k < |username| {
        assert !IsSpace(username[k]);
      } else if k > |username| {
        assert !IsSpace(place[k - |username| - 1]);
      }
    }
  }

  /** Two targets, or none, are no command. */
  lemma OneTargetOnly(items: seq<Item>, after: Text, args: seq<Argument>)
    requires GoodLine(items) && AllSpaces(after) && Meanings(items) == [SSH] + AllWords(args)
    requires GoodArguments(args) && |Targets(args)| != 1
    ensures ParseCommand(Line(items) + after) == None
  {
    WordsRead(items, after);
    OptionsRead(args, Options(None, None));
    assert [] + Targets(args) == Targets(args);
    assert ([SSH] + AllWords(args))[1..] == AllWords(args);
  }

  lemma TwoArguments(a: Argument, b: Argument)
    ensures AllWords([a, b]) == WordsOf(a) + WordsOf(b)
    ensures Targets([a, b]) == (if a.Target? then [a.target] else []) + (if b.Target? then [b.target] else [])
    ensures !a.Target? && b.Target? && AllDigits(a.port) ==> LastPort([a, b], None) == Some(Number(a.port))
    ensures a.Target? && !b.Target? && AllDigits(b.port) ==> LastPort([a, b], None) == Some(Number(b.port))
  {
    assert [a, b][1..] == [b] && [b][1..] == [];
    assert AllWords([b]) == WordsOf(b) + [] == WordsOf(b);
    assert Targets([b]) == (if b.Target? then [b.target] else []) + [];
    OneArgument(b, None);
    OneArgument(b, if !a.Target? && AllDigits(a.port) then Some(Number(a.port)) else None);
  }

  lemma OneArgument(b: Argument, otherwise: Option<int>)
    ensures LastPort([b], otherwise) == if !b.Target? && AllDigits(b.port) then Some(Number(b.port)) else otherwise
  {
    assert [b][1..] == [];
  }

  /** A port option before a target: it counts, whatever port the target has. */
  lemma OptionFirst(items: seq<Item>, option: Argument, username: Text, place: Text)
    requires GoodLine(items) && GoodArgument(option) && !option.Target? && IsName(username) && username[0] != DASH
    requires AT !in place && HostPort(place).Some?
    requires Meanings(items) == [SSH] + (WordsOf(option) + [username + [AT] + place])
    ensures ParseInput(Line(items)) == Some(Address(username, HostPort(place).value.0, Number(option.port)))
  {
    var goal := Target(username + [AT] + place);
    TwoArguments(option, goal);
    assert [] + [goal.target] == [goal.target] && Line(items) + [] == Line(items);
    assert GoodArgument(goal);
    CommandReads(items, [], [option, goal], username, place);
  }

  /** A port option behind a target: it counts, whatever port the target has. */
  lemma OptionLast(items: seq<Item>, option: Argument, username: Text, place: Text)
    requires GoodLine(items) && GoodArgument(option) && !option.Target? && IsName(username) && username[0] != DASH
    requires AT !in place && HostPort(place).Some?
    requires Meanings(items) == [SSH] + ([username + [AT] + place] + WordsOf(option))
    ensures ParseInput(Line(items)) == Some(Address(username, HostPort(place).value.0, Number(option.port)))
  {
    var goal := Target(username + [AT] + place);
    TwoArguments(goal, option);
    assert [goal.target] + [] == [goal.target] && Line(items) + [] == Line(items);
    assert GoodArgument(goal);
    CommandReads(items, [], [goal, option], username, place);
  }

  /** The three usual forms, for every name and port and however spaced and quoted: the option before the
      target, joined to its number, or behind a target with a port of its own, which it overrides. */
  lemma UsualForms(items: seq<Item>, username: Text, host: Text, option: Text, own: Text)
    requires GoodLine(items) && IsName(username) && username[0] != DASH && IsName(host) && COLON !in host && host[0] != OPEN
    requires IsPort(option) && IsPort(own)
    ensures Meanings(items) == [SSH] + ([[DASH, LETTER_P], option] + [username + [AT] + host]) ==>
              ParseInput(Line(items)) == Some(Address(username, host, Number(option)))
    ensures Meanings(items) == [SSH] + ([[DASH, LETTER_P] + option] + [username + [AT] + host]) ==>
              ParseInput(Line(items)) == Some(Address(username, host, Number(option)))
    ensures Meanings(items) == [SSH] + ([username + [AT] + (host + [COLON] + own)] + [[DASH, LETTER_P], option]) ==>
              ParseInput(Line(items)) == Some(Address(username, host, Number(option)))
  {
    HostForms(host, own);
    if Meanings(items) == [SSH] + (WordsOf(Apart(option)) + [username + [AT] + host]) {
      OptionFirst(items, Apart(option), username, host);
    }
    if Meanings(items) == [SSH] + (WordsOf(Together(option)) + [username + [AT] + host]) {
      OptionFirst(items, Together(option), username, host);
    }
    if Meanings(items) == [SSH] + ([username + [AT] + (host + [COLON] + own)] + WordsOf(Apart(option))) {
      OptionLast(items, Apart(option), username, host + [COLON] + own);
    }
  }

  // ---------------------------------------------------------------- the source's loop

  /** The loop over the words behind `ssh`. */
  method ReadArguments(tokens: seq<Text>) returns (result: Option<Options>)
    requires |tokens| >= 1
    ensures result == ReadOptions(tokens[1..], Options(None, None))
  {
    var port: Option<int> := None;
    var target: Option<Text> := None;
    var index := 1;
    while index < |tokens|
      invariant 1 <= index <= |tokens|
      invariant ReadOptions(tokens[index..], Options(port, target)) == ReadOptions(tokens[1..], Options(None, None))
    {
      var token, rest := tokens[index], tokens[index..];
      assert rest[0] == token && rest[1..] == tokens[index + 1..];
      if token == [DASH, LETTER_P] {
        if index + 1 >= |tokens| || tokens[index + 1] == [] {
          return None;
        }
        port := ParsePort(tokens[index + 1]);
        if port.None? {
          return None;
        }
        assert rest[1] == tokens[index + 1] && rest[2..] == tokens[index + 2..];
        index := index + 2;
        continue;
      }
      if StartsWithP(token) {
        port := ParsePort(token[2..]);
        if port.None? {
          return None;
        }
      } else if (token != [] && token[0] == DASH) || target.Some? {
        return None;
      } else {
        target := Some(token);
      }
      index := index + 1;
    }
    result := Some(Options(port, target));
  }

  method ParseQuickSshCommand(input: Text) returns (address: Option<Address>)
    ensures address == ParseCommand(input)
  {
    var tokens := SplitCommandTokens(Trim(input));
    if |tokens| < 2 || tokens[0] != SSH {
      return None;
    }
    var options := ReadArguments(tokens);
    if options.None? || options.value.target.None? {
      return None;
    }
    address := AddressOfTarget(options.value.port, options.value.target.value);
  }

  /** What the source does with the target once the loop is through. */
  method AddressOfTarget(port: Option<int>, target: Text) returns (address: Option<Address>)
    ensures address == AddressOf(port, target)
  {
    var atIndex := IndexOf(target, AT);
    if atIndex <= 0 || atIndex != LastIndexOf(target, AT) {
      return None;
    }
    var username := Trim(target[..atIndex]);
    var hostPort := ParseHostPort(target[atIndex + 1..]);
    if username == [] || HasSpaceOrSlash(username) || hostPort.None? {
      return None;
    }
    address := Some(Address(username, hostPort.value.0, if port.Some? then port.value else hostPort.value.1));
  }
}
