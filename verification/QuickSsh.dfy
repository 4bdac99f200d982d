/** Addresses typed for an SSH connection (`packages/shared-core/src/quick-connect.ts`): reading them, and
    the label they are shown as. */
module QuickSsh {
  import opened Words
  import opened JsText

  const AT: U16 := 0x40
  const COLON: U16 := 0x3A
  const OPEN: U16 := 0x5B
  const CLOSE: U16 := 0x5D
  const DASH: U16 := 0x2D
  const QUOTE: U16 := 0x22
  const APOSTROPHE: U16 := 0x27
  const LETTER_P: U16 := 0x70
  const SSH: Text := [0x73, 0x73, 0x68]
  const DEFAULT_PORT: U16 := 22

  datatype Address = Address(username: Text, hostname: Text, port: int)

  // ---------------------------------------------------------------- searching

  /** `indexOf` of one character. */
  function IndexOf(s: Text, c: U16): (k: int)
    ensures -1 <= k < |s|
    ensures k >= 0 ==> s[k] == c && forall i :: 0 <= i < k ==> s[i] != c
    ensures k < 0 ==> c !in s
    decreases |s|
  {
    if s == [] then -1
    else
      var before := IndexOf(s[..|s| - 1], c);
      if before >= 0 then before else if s[|s| - 1] == c then |s| - 1 else -1
  }

  /** `lastIndexOf` of one character. */
  function LastIndexOf(s: Text, c: U16): (k: int)
    ensures -1 <= k < |s|
    ensures k >= 0 ==> s[k] == c && forall i :: k < i < |s| ==> s[i] != c
    ensures k < 0 ==> c !in s
    decreases |s|
  {
    if s == [] then -1 else if s[|s| - 1] == c then |s| - 1 else LastIndexOf(s[..|s| - 1], c)
  }

  /** `/[\s/]/.test(s)`. */
  predicate HasSpaceOrSlash(s: Text) {
    HasSpace(s) || SLASH in s
  }

  // ---------------------------------------------------------------- ports

  predicate IsDigit(c: U16) {
    0x30 <= c <= 0x39
  }

  predicate AllDigits(s: Text) {
    forall k :: 0 <= k < |s| ==> IsDigit(s[k])
  }

  function Number(s: Text): nat
    requires AllDigits(s)
    decreases |s|
  {
    if s == [] then 0 else Number(s[..|s| - 1]) * 10 + (s[|s| - 1] - 0x30)
  }

  /** A number in decimal, as a template literal writes it. */
  function Decimal(n: nat): (s: Text)
    ensures |s| >= 1 && AllDigits(s)
    decreases n
  {
    if n < 10 then [0x30 + n] else Decimal(n / 10) + [0x30 + n % 10]
  }

  function ParsePort(s: Text): (port: Option<int>)
    ensures port.Some? ==> 1 <= port.value <= 65535
  {
    if !(1 <= |s| <= 5) || !AllDigits(s) then None
    else if 1 <= Number(s) <= 65535 then Some(Number(s))
    else None
  }

  lemma {:induction false} DecimalReads(n: nat)
    ensures Number(Decimal(n)) == n
    decreases n
  {
    if n >= 10 {
      DecimalReads(n / 10);
    }
  }

  lemma DecimalLength(n: nat)
    requires n < 100000
    ensures |Decimal(n)| <= 5
  {
    assert n >= 10 ==> |Decimal(n)| == |Decimal(n / 10)| + 1;
    assert n >= 100 ==> |Decimal(n / 10)| == |Decimal(n / 10 / 10)| + 1;
    assert n >= 1000 ==> |Decimal(n / 10 / 10)| == |Decimal(n / 10 / 10 / 10)| + 1;
    assert n >= 10000 ==> |Decimal(n / 10 / 10 / 10)| == |Decimal(n / 10 / 10 / 10 / 10)| + 1;
  }

  lemma PortReads(port: int)
    requires 1 <= port <= 65535
    ensures ParsePort(Decimal(port)) == Some(port)
  {
    DecimalReads(port);
    DecimalLength(port);
  }

  // ---------------------------------------------------------------- host and port

  function CheckedHost(hostname: Text, port: int): Option<(Text, int)> {
    var trimmed := Trim(hostname);
    if trimmed == [] || HasSpaceOrSlash(trimmed) then None else Some((trimmed, port))
  }

  method ParseHostPort(value: Text) returns (result: Option<(Text, int)>)
    ensures result == HostPort(value)
  {
    var hostname := value;
    var port: int := DEFAULT_PORT;
    if value != [] && value[0] == OPEN {
      var closeIndex := IndexOf(value, CLOSE);
      if closeIndex <= 1 {
        return None;
      }
      hostname := value[1..closeIndex];
      var rest := value[closeIndex + 1..];
      if rest != [] {
        if rest[0] != COLON {
          return None;
        }
        var parsedPort := ParsePort(rest[1..]);
        if parsedPort.None? {
          return None;
        }
        port := parsedPort.value;
      }
    } else {
      var colonIndex := LastIndexOf(value, COLON);
      if colonIndex > 0 && IndexOf(value, COLON) == colonIndex {
        var parsedPort := ParsePort(value[colonIndex + 1..]);
        if parsedPort.None? {
          return None;
        }
        hostname := value[..colonIndex];
        port := parsedPort.value;
      }
    }
    result := CheckedHost(hostname, port);
  }

  function HostPort(value: Text): Option<(Text, int)> {
    if value != [] && value[0] == OPEN then Bracketed(value) else Plain(value)
  }

  function Bracketed(value: Text): Option<(Text, int)> {
    var close := IndexOf(value, CLOSE);
    if close <= 1 then None
    else
      var rest := value[close + 1..];
      if rest == [] then CheckedHost(value[1..close], DEFAULT_PORT)
      else if rest[0] != COLON then None
      else
        var port := ParsePort(rest[1..]);
        if port.None? then None else CheckedHost(value[1..close], port.value)
  }

  function Plain(value: Text): Option<(Text, int)> {
    var colon := LastIndexOf(value, COLON);
    if colon > 0 && IndexOf(value, COLON) == colon then
      var port := ParsePort(value[colon + 1..]);
      if port.None? then None else CheckedHost(value[..colon], port.value)
    else CheckedHost(value, DEFAULT_PORT)
  }

  // ---------------------------------------------------------------- the address form

  function ParseTarget(input: Text): Option<Address> {
    var trimmed := Trim(input);
    if trimmed == [] || HasSpace(trimmed) then None
    else
      var at := IndexOf(trimmed, AT);
      if at <= 0 || at != LastIndexOf(trimmed, AT) then None
      else
        var username := trimmed[..at];
        var host := HostPort(trimmed[at + 1..]);
        if username == [] || HasSpaceOrSlash(username) || host.None? then None
        else Some(Address(username, host.value.0, host.value.1))
  }

  // ---------------------------------------------------------------- the command form

  /** The state of the tokenizer: the tokens so far, the one being read, and the quote it is in. */
  datatype Scan = Scan(tokens: seq<Text>, current: Text, quote: Option<U16>)

  function Flushed(s: Scan): Scan {
    if s.current == [] then s else Scan(s.tokens + [s.current], [], s.quote)
  }

  function Scanned(s: Scan, c: U16): Scan {
    if s.quote.None? && IsSpace(c) then Flushed(s)
    else if (c == QUOTE || c == APOSTROPHE) && (s.quote.None? || s.quote.value == c) then
      s.(quote := if s.quote == Some(c) then None else Some(c))
    else s.(current := s.current + [c])
  }

  function ScannedAll(input: Text): Scan
    decreases |input|
  {
    if input == [] then Scan([], [], None) else Scanned(ScannedAll(input[..|input| - 1]), input[|input| - 1])
  }

  function Tokens(input: Text): seq<Text> {
    var s := ScannedAll(input);
    if s.quote.Some? then [] else Flushed(s).tokens
  }

  method SplitCommandTokens(input: Text) returns (tokens: seq<Text>)
    ensures tokens == Tokens(input)
  {
    tokens := [];
    var current: Text := [];
    var quote: Option<U16> := None;
    for index := 0 to |input|
      invariant Scan(tokens, current, quote) == ScannedAll(input[..index])
    {
      var c := input[index];
      assert input[..index + 1][..index] == input[..index];
      if quote.None? && IsSpace(c) {
        if current != [] {
          tokens := tokens + [current];
          current := [];
        }
        continue;
      }
      if (c == QUOTE || c == APOSTROPHE) && (quote.None? || quote.value == c) {
        quote := if quote == Some(c) then None else Some(c);
        continue;
      }
      current := current + [c];
    }
    assert input[..|input|] == input;
    if quote.Some? {
      return [];
    }
    if current != [] {
      tokens := tokens + [current];
    }
  }

  datatype Options = Options(port: Option<int>, target: Option<Text>)

  predicate StartsWithP(s: Text) {
    |s| >= 2 && s[0] == DASH && s[1] == LETTER_P
  }

  /** The loop over the tokens behind `ssh`: `-p N`, `-pN`, and one target. */
  function ReadOptions(tokens: seq<Text>, o: Options): Option<Options> {
    if tokens == [] then Some(o)
    else
      var token := tokens[0];
      if token == [DASH, LETTER_P] then
        if |tokens| < 2 || tokens[1] == [] then None
        else
          var port := ParsePort(tokens[1]);
          if port.None? then None else ReadOptions(tokens[2..], o.(port := port))
      else if StartsWithP(token) then
        var port := ParsePort(token[2..]);
        if port.None? then None else ReadOptions(tokens[1..], o.(port := port))
      else if token != [] && token[0] == DASH then None
      else if o.target.Some? then None
      else ReadOptions(tokens[1..], o.(target := Some(token)))
  }

  /** The address of a target; a port given as an option counts before the target's own. */
  function AddressOf(port: Option<int>, target: Text): Option<Address> {
    var at := IndexOf(target, AT);
    if at <= 0 || at != LastIndexOf(target, AT) then None
    else
      var username := Trim(target[..at]);
      var host := HostPort(target[at + 1..]);
      if username == [] || HasSpaceOrSlash(username) || host.None? then None
      else Some(Address(username, host.value.0, if port.Some? then port.value else host.value.1))
  }

  function ParseCommand(input: Text): Option<Address> {
    var tokens := Tokens(Trim(input));
    if |tokens| < 2 || tokens[0] != SSH then None
    else
      var o := ReadOptions(tokens[1..], Options(None, None));
      if o.None? || o.value.target.None? then None else AddressOf(o.value.port, o.value.target.value)
  }

  function ParseInput(input: Text): Option<Address> {
    var command := ParseCommand(input);
    if command.Some? then command else ParseTarget(input)
  }

  // ---------------------------------------------------------------- the label

  function HostText(hostname: Text): Text {
    if COLON in hostname then [OPEN] + hostname + [CLOSE] else hostname
  }

  function PortText(port: int): Text
    requires port >= 0
  {
    if port == DEFAULT_PORT then [] else [COLON] + Decimal(port)
  }

  function Label(x: Address): Text
    requires x.port >= 0
  {
    x.username + [AT] + HostText(x.hostname) + PortText(x.port)
  }

  /** What a name in an address may be. */
  predicate IsName(s: Text) {
    s != [] && !HasSpaceOrSlash(s) && AT !in s
  }

  predicate IsAddress(x: Address) {
    IsName(x.username) && IsName(x.hostname) && 1 <= x.port <= 65535
  }

  /** The host names whose label is not read as something else. */
  predicate IsPlainHost(hostname: Text) {
    if COLON in hostname then CLOSE !in hostname else hostname != [] && hostname[0] != OPEN
  }

  lemma IndexIs(s: Text, c: U16, k: nat)
    requires k < |s| && s[k] == c && forall i :: 0 <= i < k ==> s[i] != c
    ensures IndexOf(s, c) == k
  {
  }

  lemma LastIndexIs(s: Text, c: U16, k: nat)
    requires k < |s| && s[k] == c && forall i :: k < i < |s| ==> s[i] != c
    ensures LastIndexOf(s, c) == k
  {
  }

  // ---------------------------------------------------------------- reading a label

  lemma CheckedName(h: Text, port: int)
    requires IsName(h)
    ensures CheckedHost(h, port) == Some((h, port))
  {
    TrimNothing(h);
  }

  lemma {:induction false} TrimShortens(s: Text)
    ensures |Trim(s)| <= |s|
    decreases |s|
  {
    if s != [] && IsSpace(s[0]) {
      TrimShortens(s[1..]);
    } else if s != [] && IsSpace(s[|s| - 1]) {
      TrimShortens(s[..|s| - 1]);
    }
  }

  lemma CheckedShorter(h: Text, port: int)
    ensures CheckedHost(h, port).Some? ==> |CheckedHost(h, port).value.0| <= |h|
  {
    TrimShortens(h);
  }

  /** The port part starts with a colon and has nothing else but digits. */
  lemma PortTextIs(port: int)
    requires 1 <= port <= 65535
    ensures var t := PortText(port);
            && (t == [] <==> port == DEFAULT_PORT)
            && (t != [] ==> t[0] == COLON && ParsePort(t[1..]) == Some(port))
            && (forall k :: 0 <= k < |t| ==> t[k] == COLON || IsDigit(t[k]))
            && (forall k :: 0 < k < |t| ==> IsDigit(t[k]))
  {
    PortReads(port);
    assert ([COLON] + Decimal(port))[1..] == Decimal(port);
  }

  lemma BracketText(h: Text, t: Text)
    requires CLOSE !in h
    ensures var value := [OPEN] + h + [CLOSE] + t;
            value[0] == OPEN && IndexOf(value, CLOSE) == |h| + 1 && value[1..|h| + 1] == h && value[|h| + 2..] == t
  {
    var value := [OPEN] + h + [CLOSE] + t;
    assert forall i :: 0 < i <= |h| ==> value[i] == h[i - 1];
    IndexIs(value, CLOSE, |h| + 1);
  }

  lemma BracketedReads(h: Text, port: int)
    requires IsName(h) && CLOSE !in h && 1 <= port <= 65535
    ensures HostPort([OPEN] + h + [CLOSE] + PortText(port)) == Some((h, port))
  {
    PortTextIs(port);
    CheckedName(h, port);
    BracketText(h, PortText(port));
  }

  lemma PlainWithPort(h: Text, t: Text, port: int)
    requires IsName(h) && COLON !in h && h[0] != OPEN
    requires t != [] && t[0] == COLON && ParsePort(t[1..]) == Some(port) && forall k :: 0 < k < |t| ==> IsDigit(t[k])
    ensures HostPort(h + t) == Some((h, port))
  {
    var value := h + t;
    CheckedName(h, port);
    OneColon(h, t);
    assert value[0] == h[0] && value[..|h|] == h && value[|h| + 1..] == t[1..];
  }

  lemma PlainReads(h: Text, port: int)
    requires IsName(h) && COLON !in h && h[0] != OPEN && 1 <= port <= 65535
    ensures HostPort(h + PortText(port)) == Some((h, port))
  {
    var t := PortText(port);
    PortTextIs(port);
    if t == [] {
      CheckedName(h, port);
      assert h + t == h;
    } else {
      PlainWithPort(h, t, port);
    }
  }

  lemma OneColon(h: Text, t: Text)
    requires COLON !in h && t != [] && t[0] == COLON && forall k :: 0 < k < |t| ==> IsDigit(t[k])
    ensures IndexOf(h + t, COLON) == LastIndexOf(h + t, COLON) == |h|
  {
    var value := h + t;
    assert forall i :: 0 <= i < |h| ==> value[i] == h[i];
    assert forall i :: |h| <= i < |value| ==> value[i] == t[i - |h|];
    IndexIs(value, COLON, |h|);
    LastIndexIs(value, COLON, |h|);
  }

  /** A host name that closes the bracket early is read as a shorter one, if as any. */
  lemma EarlyClose(h: Text, value: Text, k: nat)
    requires value != [] && value[0] == OPEN && k < |value| && value[k] == CLOSE && k <= |h|
    ensures HostPort(value).Some? ==> |HostPort(value).value.0| < |h|
  {
    var close := IndexOf(value, CLOSE);
    if close > 1 {
      assert close <= k;
      CheckedShorter(value[1..close], DEFAULT_PORT);
      var rest := value[close + 1..];
      if rest != [] && rest[0] == COLON && ParsePort(rest[1..]).Some? {
        CheckedShorter(value[1..close], ParsePort(rest[1..]).value);
      }
    }
  }

  /** A bracket that opens and never closes is not read at all. */
  lemma NeverClosed(h: Text, t: Text)
    requires h != [] && h[0] == OPEN && CLOSE !in h && CLOSE !in t
    ensures HostPort(h + t) == None
  {
    var value := h + t;
    assert value[0] == OPEN && CLOSE !in value;
  }

  lemma ClosedInside(h: Text, value: Text, shift: nat)
    requires shift <= 1 && CLOSE in h && value != [] && value[0] == OPEN && |h| + shift <= |value|
    requires forall i :: 0 <= i < |h| ==> value[i + shift] == h[i]
    ensures HostPort(value).Some? ==> |HostPort(value).value.0| < |h|
  {
    var k := IndexOf(h, CLOSE);
    assert value[k + shift] == CLOSE;
    EarlyClose(h, value, k + shift);
  }

  lemma NotPlainMisreads(h: Text, port: int)
    requires IsName(h) && !IsPlainHost(h) && 1 <= port <= 65535
    ensures HostPort(HostText(h) + PortText(port)) != Some((h, port))
  {
    var t := PortText(port);
    PortTextIs(port);
    if COLON in h {
      ClosedInside(h, [OPEN] + h + [CLOSE] + t, 1);
    } else if CLOSE in h {
      ClosedInside(h, h + t, 0);
    } else {
      NeverClosed(h, t);
    }
  }

  /** Reading the host and port of a label gives them back exactly when the host name is plain. */
  lemma HostReads(h: Text, port: int)
    requires IsName(h) && 1 <= port <= 65535
    ensures HostPort(HostText(h) + PortText(port)) == Some((h, port)) <==> IsPlainHost(h)
  {
    if !IsPlainHost(h) {
      NotPlainMisreads(h, port);
    } else if COLON in h {
      BracketedReads(h, port);
    } else {
      PlainReads(h, port);
    }
  }

  /** Without a space there is at most one token, so the input is no command. */
  lemma {:induction false} OneToken(s: Text)
    requires !HasSpace(s)
    ensures ScannedAll(s).tokens == []
    decreases |s|
  {
    if s != [] {
      var init := s[..|s| - 1];
      assert forall k :: 0 <= k < |init| ==> init[k] == s[k];
      OneToken(init);
      assert !IsSpace(s[|s| - 1]);
    }
  }

  lemma LabelText(x: Address)
    requires IsAddress(x)
    ensures !HasSpace(Label(x))
    ensures IndexOf(Label(x), AT) == LastIndexOf(Label(x), AT) == |x.username|
    ensures Label(x)[..|x.username|] == x.username
    ensures Label(x)[|x.username| + 1..] == HostText(x.hostname) + PortText(x.port)
  {
    var host, t, n := HostText(x.hostname), PortText(x.port), |x.username|;
    var s, rest := Label(x), host + t;
    PortTextIs(x.port);
    assert s == x.username + [AT] + rest;
    assert forall k :: 0 <= k < |rest| ==> !IsSpace(rest[k]) && rest[k] != AT by {
      forall k | 0 <= k < |rest| ensures !IsSpace(rest[k]) && rest[k] != AT {
        assert rest[k] in x.hostname || rest[k] == OPEN || rest[k] == CLOSE || rest[k] == COLON || IsDigit(rest[k]);
      }
    }
    forall k | 0 <= k < |s| ensures !IsSpace(s[k]) && (k != n ==> s[k] != AT) {
      if k > n {
        assert s[k] == rest[k - n - 1];
      }
    }
    IndexIs(s, AT, n);
    LastIndexIs(s, AT, n);
  }

  /** Text without spaces and with one `@` is read as an address or not at all. */
  lemma InputReads(s: Text, username: Text, rest: Text)
    requires !HasSpace(s) && IsName(username)
    requires IndexOf(s, AT) == LastIndexOf(s, AT) == |username|
    requires s[..|username|] == username && s[|username| + 1..] == rest
    ensures ParseInput(s) == if HostPort(rest).None? then None else Some(Address(username, HostPort(rest).value.0, HostPort(rest).value.1))
  {
    TrimNothing(s);
    OneToken(s);
  }

  /** A label reads back as the address it was made from, exactly when the host name is plain: without a
      closing bracket if it has a colon, without an opening one at the start if not. */
  lemma LabelReads(x: Address)
    requires IsAddress(x)
    ensures ParseInput(Label(x)) == Some(x) <==> IsPlainHost(x.hostname)
  {
    LabelText(x);
    InputReads(Label(x), x.username, HostText(x.hostname) + PortText(x.port));
    HostReads(x.hostname, x.port);
  }

  // ---------------------------------------------------------------- what reading yields

  lemma {:induction false} TrimFrom(s: Text)
    ensures forall c :: c in Trim(s) ==> c in s
    decreases |s|
  {
    if s != [] && IsSpace(s[0]) {
      TrimFrom(s[1..]);
    } else if s != [] && IsSpace(s[|s| - 1]) {
      TrimFrom(s[..|s| - 1]);
    }
  }

  predicate InRange(port: int) {
    1 <= port <= 65535
  }

  /** A host that was read: a name as far as spaces and slashes go, made of characters of the text. */
  ghost predicate ReadFrom(value: Text, r: Option<(Text, int)>) {
    r.Some? ==> r.value.0 != [] && !HasSpaceOrSlash(r.value.0) && InRange(r.value.1) && forall c :: c in r.value.0 ==> c in value
  }

  lemma CheckedFrom(value: Text, part: Text, port: int)
    requires InRange(port) && forall c :: c in part ==> c in value
    ensures ReadFrom(value, CheckedHost(part, port))
  {
    TrimFrom(part);
  }

  lemma HostFrom(value: Text)
    ensures ReadFrom(value, HostPort(value))
  {
    var close, colon := IndexOf(value, CLOSE), LastIndexOf(value, COLON);
    if value != [] && value[0] == OPEN {
      if close > 1 {
        var rest := value[close + 1..];
        CheckedFrom(value, value[1..close], DEFAULT_PORT);
        if rest != [] && ParsePort(rest[1..]).Some? {
          CheckedFrom(value, value[1..close], ParsePort(rest[1..]).value);
        }
      }
    } else {
      CheckedFrom(value, value, DEFAULT_PORT);
      if colon > 0 && ParsePort(value[colon + 1..]).Some? {
        CheckedFrom(value, value[..colon], ParsePort(value[colon + 1..]).value);
      }
    }
  }

  /** The part behind the only `@` of a text has none. */
  lemma NoSecondAt(s: Text, at: nat)
    requires at < |s| && IndexOf(s, AT) == at == LastIndexOf(s, AT)
    ensures AT !in s[..at] && AT !in s[at + 1..]
  {
  }

  lemma TargetIsAddress(input: Text)
    ensures ParseTarget(input).Some? ==> IsAddress(ParseTarget(input).value)
  {
    var s := Trim(input);
    var at := IndexOf(s, AT);
    if at > 0 && at == LastIndexOf(s, AT) {
      NoSecondAt(s, at);
      HostFrom(s[at + 1..]);
    }
  }

  lemma {:induction false} OptionsInRange(tokens: seq<Text>, o: Options)
    requires o.port.Some? ==> InRange(o.port.value)
    ensures ReadOptions(tokens, o).Some? && ReadOptions(tokens, o).value.port.Some? ==> InRange(ReadOptions(tokens, o).value.port.value)
    decreases |tokens|
  {
    if tokens != [] {
      var token := tokens[0];
      if token == [DASH, LETTER_P] {
        if |tokens| >= 2 && ParsePort(tokens[1]).Some? {
          OptionsInRange(tokens[2..], o.(port := ParsePort(tokens[1])));
        }
      } else if StartsWithP(token) {
        if ParsePort(token[2..]).Some? {
          OptionsInRange(tokens[1..], o.(port := ParsePort(token[2..])));
        }
      } else {
        OptionsInRange(tokens[1..], o.(target := Some(token)));
      }
    }
  }

  lemma PartsAreNames(target: Text, at: nat)
    requires at < |target| && IndexOf(target, AT) == at == LastIndexOf(target, AT)
    ensures var username, host := Trim(target[..at]), HostPort(target[at + 1..]);
            username != [] && !HasSpaceOrSlash(username) && host.Some? ==>
              IsName(username) && IsName(host.value.0) && 1 <= host.value.1 <= 65535
  {
    NoSecondAt(target, at);
    TrimFrom(target[..at]);
    HostFrom(target[at + 1..]);
  }

  lemma CommandIsAddress(input: Text)
    ensures ParseCommand(input).Some? ==> IsAddress(ParseCommand(input).value)
  {
    var tokens := Tokens(Trim(input));
    if |tokens| >= 2 {
      OptionsInRange(tokens[1..], Options(None, None));
      var o := ReadOptions(tokens[1..], Options(None, None));
      if o.Some? && o.value.target.Some? {
        var target := o.value.target.value;
        var at := IndexOf(target, AT);
        if at > 0 && at == LastIndexOf(target, AT) {
          PartsAreNames(target, at);
        }
      }
    }
  }

  /** Whatever was typed, what is read is a proper address; so its label reads back as the same address
      exactly when its host name is plain. */
  lemma ReadThenShown(input: Text)
    requires ParseInput(input).Some?
    ensures var x := ParseInput(input).value;
            IsAddress(x) && (ParseInput(Label(x)) == Some(x) <==> IsPlainHost(x.hostname))
  {
    TargetIsAddress(input);
    CommandIsAddress(input);
    LabelReads(ParseInput(input).value);
  }

  /** `u@[[a]`: the host name that is read is `[a`, and its label `u@[a` is not read at all. */
  const BRACKET_HOST: Text := [OPEN, 0x61]
  const BRACKET_INPUT: Text := [0x75, AT, OPEN, OPEN, 0x61, CLOSE]

  lemma LabelMayNotRead()
    ensures var x := Address([0x75], BRACKET_HOST, DEFAULT_PORT);
            ParseInput(BRACKET_INPUT) == Some(x) && ParseInput(Label(x)) != Some(x)
  {
    BracketInputReads();
    BracketIsNotPlain();
    LabelFails(Address([0x75], BRACKET_HOST, DEFAULT_PORT));
  }

  lemma BracketIsNotPlain()
    ensures IsAddress(Address([0x75], BRACKET_HOST, DEFAULT_PORT)) && !IsPlainHost(BRACKET_HOST)
  {
  }

  lemma LabelFails(x: Address)
    requires IsAddress(x) && !IsPlainHost(x.hostname)
    ensures ParseInput(Label(x)) != Some(x)
  {
    LabelReads(x);
  }

  lemma BracketInputReads()
    ensures ParseInput(BRACKET_INPUT) == Some(Address([0x75], BRACKET_HOST, DEFAULT_PORT))
  {
    var value := BRACKET_INPUT[2..];
    assert value == [OPEN, OPEN, 0x61, CLOSE];
    assert !HasSpace(BRACKET_INPUT);
    IndexIs(BRACKET_INPUT, AT, 1);
    LastIndexIs(BRACKET_INPUT, AT, 1);
    IndexIs(value, CLOSE, 3);
    assert value[1..3] == BRACKET_HOST && value[4..] == [];
    CheckedName(BRACKET_HOST, DEFAULT_PORT);
    assert IsName([0x75]) && BRACKET_INPUT[..1] == [0x75];
    InputReads(BRACKET_INPUT, [0x75], value);
  }
}
