/** Base64 (`packages/shared-core/src/base64.ts`; the format is section 4 of RFC 4648). */
module Base64 {
  import opened Words
  import opened JsText

  type Sextet = x: int | 0 <= x < 64

  const PAD: U16 := 0x3D

  /** The alphabet, `A-Z a-z 0-9 + /`. */
  function Symbol(v: Sextet): U16 {
    if v < 26 then 0x41 + v
    else if v < 52 then 0x61 + (v - 26)
    else if v < 62 then 0x30 + (v - 52)
    else if v == 62 then 0x2B
    else 0x2F
  }

  /** The inverse of the alphabet; -1 for anything else. */
  function Lookup(code: U16): (v: int)
    ensures -1 <= v < 64
    ensures v >= 0 ==> Symbol(v) == code
    ensures forall x: Sextet :: Symbol(x) == code ==> v == x
  {
    if 0x41 <= code <= 0x5A then code - 0x41
    else if 0x61 <= code <= 0x7A then code - 0x61 + 26
    else if 0x30 <= code <= 0x39 then code - 0x30 + 52
    else if code == 0x2B then 62
    else if code == 0x2F then 63
    else -1
  }

  /** The lookup table as the source builds it, by running over the alphabet. */
  method BuildLookup() returns (table: array<int>)
    ensures table.Length == 128
    ensures forall code: U16 :: code < 128 ==> table[code] == Lookup(code)
    ensures forall code: U16 :: code >= 128 ==> Lookup(code) == -1
  {
    table := new int[128](_ => -1);
    for index := 0 to 64
      invariant forall code: U16 :: code < 128 ==> table[code] == if 0 <= Lookup(code) < index then Lookup(code) else -1
    {
      table[Symbol(index)] := index;
    }
  }

  // ---------------------------------------------------------------- the meaning: one big number

  /** The number a sequence of symbols writes in base 64. */
  function Value64(s: seq<Sextet>): nat
    decreases |s|
  {
    if s == [] then 0 else Value64(s[..|s| - 1]) * 64 + s[|s| - 1]
  }

  /** The number a sequence of bytes writes in base 256. */
  function Value256(s: seq<Byte>): nat
    decreases |s|
  {
    if s == [] then 0 else Value256(s[..|s| - 1]) * 256 + s[|s| - 1]
  }

  /** The `length` lowest bytes of `v`, most significant first. */
  function BytesOf(v: nat, length: nat): (r: seq<Byte>)
    ensures |r| == length
    decreases length
  {
    if length == 0 then [] else BytesOf(v / 256, length - 1) + [v % 256]
  }

  lemma {:induction false} BytesOfValue(s: seq<Byte>)
    ensures BytesOf(Value256(s), |s|) == s
    decreases |s|
  {
    if s != [] {
      BytesOfValue(s[..|s| - 1]);
      assert Value256(s) / 256 == Value256(s[..|s| - 1]) && Value256(s) % 256 == s[|s| - 1];
    }
  }

  /** How many symbols `n` symbols have after the last whole group of four. */
  function Phase(n: nat): (p: nat)
    ensures p < 4
  {
    if n < 4 then n else Phase(n - 4)
  }

  lemma {:induction false} PhaseIsRemainder(n: nat)
    ensures Phase(n) == n % 4
  {
    if n >= 4 {
      PhaseIsRemainder(n - 4);
    }
  }

  /** `v >> bits`, on an unbounded number. */
  function Shifted(v: int, bits: nat): (r: int)
    ensures v >= 0 ==> r >= 0
    decreases bits
  {
    if bits == 0 then v else Shifted(v / 2, bits - 1)
  }

  /** Bits left over after whole bytes, by the place of the last symbol in its group of four. */
  function Waiting(phase: nat): nat {
    match phase
    case 0 => 0
    case 1 => 6
    case 2 => 4
    case _ => 2
  }

  /** The number of whole bytes in `n` symbols. */
  function ByteLength(n: nat): nat {
    if n < 2 then 0 else if n < 4 then n - 1 else ByteLength(n - 4) + 3
  }

  lemma {:induction false} ByteLengthIsFloor(n: nat)
    ensures ByteLength(n) == n * 3 / 4
  {
    if n >= 4 {
      ByteLengthIsFloor(n - 4);
    }
  }

  /** What a string of symbols stands for: its number without the left-over bits, in whole bytes. */
  function Decoded(s: seq<Sextet>): (r: seq<Byte>)
    ensures |r| == ByteLength(|s|)
  {
    BytesOf(Shifted(Value64(s), Waiting(Phase(|s|))), ByteLength(|s|))
  }

  lemma ShiftsByTwo(v: int)
    ensures Shifted(v, 2) == v / 4 && Shifted(v, 4) == v / 16 && Shifted(v, 6) == v / 64
  {
    ShiftTwo(v, 0);
    ShiftTwo(v, 2);
    ShiftTwo(v, 4);
    ShiftTwo(v / 4, 0);
    ShiftTwo(v / 4, 2);
    ShiftTwo(v / 16, 0);
  }

  lemma ShiftTwo(v: int, bits: nat)
    ensures Shifted(v, bits + 2) == Shifted(v / 4, bits)
  {
    assert Shifted(v, bits + 2) == Shifted(v / 2, bits + 1);
  }

  // ---------------------------------------------------------------- encoding

  function Quad(x: Byte, y: Byte, z: Byte): seq<Sextet> {
    [x / 4, x % 4 * 16 + y / 16, y % 16 * 4 + z / 64, z % 64]
  }

  function WholeGroups(bytes: seq<Byte>): (r: seq<Sextet>)
    requires |bytes| % 3 == 0
    ensures |r| == |bytes| / 3 * 4
    decreases |bytes|
  {
    if bytes == [] then []
    else
      var n := |bytes|;
      WholeGroups(bytes[..n - 3]) + Quad(bytes[n - 3], bytes[n - 2], bytes[n - 1])
  }

  function LastGroup(bytes: seq<Byte>): seq<Sextet>
    requires |bytes| < 3
  {
    if |bytes| == 0 then []
    else if |bytes| == 1 then [bytes[0] / 4, bytes[0] % 4 * 16]
    else [bytes[0] / 4, bytes[0] % 4 * 16 + bytes[1] / 16, bytes[1] % 16 * 4]
  }

  /** The symbols of an encoding, without padding. */
  function Sextets(bytes: seq<Byte>): seq<Sextet> {
    var whole := |bytes| / 3 * 3;
    WholeGroups(bytes[..whole]) + LastGroup(bytes[whole..])
  }

  function Symbols(s: seq<Sextet>): (r: Text)
    ensures |r| == |s|
  {
    seq(|s|, i requires 0 <= i < |s| => Symbol(s[i]))
  }

  function Padding(length: nat): Text {
    match length % 3
    case 0 => []
    case 1 => [PAD, PAD]
    case _ => [PAD]
  }

  function Encoded(bytes: seq<Byte>): Text {
    Symbols(Sextets(bytes)) + Padding(|bytes|)
  }

  lemma SymbolsAppend(a: seq<Sextet>, b: seq<Sextet>)
    ensures Symbols(a + b) == Symbols(a) + Symbols(b)
  {
  }

  /** The four characters of the group that starts at `index`. */
  method EncodeGroup(bytes: seq<Byte>, index: nat) returns (group: Text)
    requires index < |bytes| && index % 3 == 0
    ensures |bytes| >= index + 3 ==> group == Symbols(Quad(bytes[index], bytes[index + 1], bytes[index + 2]))
    ensures |bytes| < index + 3 ==> group == Symbols(LastGroup(bytes[index..])) + Padding(|bytes| - index)
  {
    var byte0 := bytes[index];
    var hasByte1 := index + 1 < |bytes|;
    var hasByte2 := index + 2 < |bytes|;
    var byte1: Byte := if hasByte1 then bytes[index + 1] else 0;
    var byte2: Byte := if hasByte2 then bytes[index + 2] else 0;
    group := [Symbol(byte0 / 4)];
    group := group + [Symbol(byte0 % 4 * 16 + byte1 / 16)];
    group := group + [if hasByte1 then Symbol(byte1 % 16 * 4 + byte2 / 64) else PAD];
    group := group + [if hasByte2 then Symbol(byte2 % 64) else PAD];
  }

  method BytesToBase64(bytes: seq<Byte>) returns (output: Text)
    ensures output == Encoded(bytes)
  {
    output := [];
    var index := 0;
    while index < |bytes|
      invariant index % 3 == 0
      invariant output == if index <= |bytes| then Symbols(WholeGroups(bytes[..index])) else Encoded(bytes)
    {
      var group := EncodeGroup(bytes, index);
      GroupDone(bytes, index);
      NextGroup(index);
      output := output + group;
      index := index + 3;
    }
    if index == |bytes| {
      assert bytes[..|bytes|] == bytes && bytes[|bytes|..] == [];
      assert Sextets(bytes) == WholeGroups(bytes);
    }
  }

  lemma NextGroup(index: nat)
    requires index % 3 == 0
    ensures (index + 3) % 3 == 0
  {
  }

  lemma GroupDone(bytes: seq<Byte>, index: nat)
    requires index < |bytes| && index % 3 == 0
    ensures |bytes| >= index + 3 ==>
              Symbols(WholeGroups(bytes[..index + 3])) == Symbols(WholeGroups(bytes[..index])) + Symbols(Quad(bytes[index], bytes[index + 1], bytes[index + 2]))
    ensures |bytes| < index + 3 ==>
              Encoded(bytes) == Symbols(WholeGroups(bytes[..index])) + (Symbols(LastGroup(bytes[index..])) + Padding(|bytes| - index))
  {
    if |bytes| >= index + 3 {
      assert bytes[..index + 3][..index] == bytes[..index];
      SymbolsAppend(WholeGroups(bytes[..index]), Quad(bytes[index], bytes[index + 1], bytes[index + 2]));
    } else {
      assert |bytes| / 3 * 3 == index && |bytes| % 3 == |bytes| - index;
      SymbolsAppend(WholeGroups(bytes[..index]), LastGroup(bytes[index..]));
    }
  }

  // ---------------------------------------------------------------- encoding keeps the number

  lemma Value64Four(s: seq<Sextet>, a: Sextet, b: Sextet, c: Sextet, d: Sextet)
    ensures Value64(s + [a, b, c, d]) == Value64(s) * 16777216 + a * 262144 + b * 4096 + c * 64 + d
  {
    assert (s + [a, b, c, d])[..|s| + 3] == s + [a, b, c];
    Value64Three(s, a, b, c);
  }

  lemma Value64Three(s: seq<Sextet>, a: Sextet, b: Sextet, c: Sextet)
    ensures Value64(s + [a, b, c]) == Value64(s) * 262144 + a * 4096 + b * 64 + c
  {
    assert (s + [a, b, c])[..|s| + 2] == s + [a, b];
    Value64Two(s, a, b);
  }

  lemma Value64Two(s: seq<Sextet>, a: Sextet, b: Sextet)
    ensures Value64(s + [a, b]) == Value64(s) * 4096 + a * 64 + b
  {
    assert (s + [a, b])[..|s| + 1] == s + [a];
    assert (s + [a])[..|s|] == s;
  }

  lemma Value256Two(s: seq<Byte>, x: Byte, y: Byte)
    ensures Value256(s + [x, y]) == Value256(s) * 65536 + x * 256 + y
  {
    assert (s + [x, y])[..|s| + 1] == s + [x];
    assert (s + [x])[..|s|] == s;
  }

  lemma Value256Three(s: seq<Byte>, x: Byte, y: Byte, z: Byte)
    ensures Value256(s + [x, y, z]) == Value256(s) * 16777216 + x * 65536 + y * 256 + z
  {
    assert (s + [x, y, z])[..|s| + 2] == s + [x, y];
    Value256Two(s, x, y);
  }

  lemma QuadNumber(x: Byte, y: Byte, z: Byte)
    ensures x / 4 * 262144 + (x % 4 * 16 + y / 16) * 4096 + (y % 16 * 4 + z / 64) * 64 + z % 64 == x * 65536 + y * 256 + z
  {
  }

  lemma QuadValue(s: seq<Sextet>, init: seq<Byte>, x: Byte, y: Byte, z: Byte)
    requires Value64(s) == Value256(init)
    ensures Value64(s + Quad(x, y, z)) == Value256(init + [x, y, z])
  {
    Value64Four(s, x / 4, x % 4 * 16 + y / 16, y % 16 * 4 + z / 64, z % 64);
    Value256Three(init, x, y, z);
    QuadNumber(x, y, z);
  }

  lemma {:induction false} WholeGroupsValue(bytes: seq<Byte>)
    requires |bytes| % 3 == 0
    ensures Value64(WholeGroups(bytes)) == Value256(bytes)
    decreases |bytes|
  {
    if bytes != [] {
      var n := |bytes|;
      var init := bytes[..n - 3];
      WholeGroupsValue(init);
      QuadValue(WholeGroups(init), init, bytes[n - 3], bytes[n - 2], bytes[n - 1]);
      assert bytes == init + [bytes[n - 3], bytes[n - 2], bytes[n - 1]];
    }
  }

  lemma OneByteLeft(v: nat, x: Byte)
    ensures (v * 4096 + x / 4 * 64 + x % 4 * 16) / 16 == v * 256 + x
  {
    assert v * 4096 + x / 4 * 64 + x % 4 * 16 == (v * 256 + x) * 16;
  }

  lemma TwoBytesLeft(v: nat, x: Byte, y: Byte)
    ensures (v * 262144 + x / 4 * 4096 + (x % 4 * 16 + y / 16) * 64 + y % 16 * 4) / 4 == v * 65536 + x * 256 + y
  {
    assert v * 262144 + x / 4 * 4096 + (x % 4 * 16 + y / 16) * 64 + y % 16 * 4 == (v * 65536 + x * 256 + y) * 4;
  }

  /** The last, partial group of an encoding stands for the bytes that are left. */
  lemma LastGroupValue(s: seq<Sextet>, init: seq<Byte>, tail: seq<Byte>)
    requires |tail| < 3
    requires Value64(s) == Value256(init)
    ensures Shifted(Value64(s + LastGroup(tail)), Waiting(|LastGroup(tail)|)) == Value256(init + tail)
  {
    if |tail| == 0 {
      assert s + [] == s && init + tail == init;
    } else if |tail| == 1 {
      OneLastByte(s, init, tail[0]);
      assert tail == [tail[0]];
    } else {
      TwoLastBytes(s, init, tail[0], tail[1]);
      assert tail == [tail[0], tail[1]];
    }
  }

  lemma OneLastByte(s: seq<Sextet>, init: seq<Byte>, x: Byte)
    requires Value64(s) == Value256(init)
    ensures Shifted(Value64(s + LastGroup([x])), Waiting(2)) == Value256(init + [x])
  {
    Value64Two(s, x / 4, x % 4 * 16);
    OneByteLeft(Value64(s), x);
    ShiftsByTwo(Value64(s + [x / 4, x % 4 * 16]));
    assert (init + [x])[..|init|] == init;
  }

  lemma TwoLastBytes(s: seq<Sextet>, init: seq<Byte>, x: Byte, y: Byte)
    requires Value64(s) == Value256(init)
    ensures Shifted(Value64(s + LastGroup([x, y])), Waiting(3)) == Value256(init + [x, y])
  {
    Value64Three(s, x / 4, x % 4 * 16 + y / 16, y % 16 * 4);
    TwoBytesLeft(Value64(s), x, y);
    ShiftsByTwo(Value64(s + [x / 4, x % 4 * 16 + y / 16, y % 16 * 4]));
    Value256Two(init, x, y);
  }

  /** The number of symbols that encode `bytes` bytes. */
  lemma EncodedLength(bytes: nat, last: nat)
    requires last == if bytes % 3 == 0 then 0 else bytes % 3 + 1
    ensures bytes / 3 * 3 / 3 == bytes / 3 && bytes / 3 * 3 % 3 == 0
    ensures 0 <= bytes - bytes / 3 * 3 == bytes % 3 < 3
    ensures Phase(bytes / 3 * 4 + last) == last != 1
    ensures ByteLength(bytes / 3 * 4 + last) == bytes
  {
    PhaseIsRemainder(bytes / 3 * 4 + last);
    ByteLengthIsFloor(bytes / 3 * 4 + last);
  }

  lemma SextetsCount(bytes: seq<Byte>)
    ensures Phase(|Sextets(bytes)|) == |LastGroup(bytes[|bytes| / 3 * 3..])| != 1
    ensures ByteLength(|Sextets(bytes)|) == |bytes|
  {
    var last := if |bytes| % 3 == 0 then 0 else |bytes| % 3 + 1;
    EncodedLength(|bytes|, last);
    assert |LastGroup(bytes[|bytes| / 3 * 3..])| == last;
  }

  /** The symbols of an encoding stand for the bytes that were encoded. */
  lemma SextetsValue(bytes: seq<Byte>)
    ensures Shifted(Value64(Sextets(bytes)), Waiting(Phase(|Sextets(bytes)|))) == Value256(bytes)
  {
    SextetsCount(bytes);
    var whole := |bytes| / 3 * 3;
    var init, tail := bytes[..whole], bytes[whole..];
    WholeGroupsValue(init);
    LastGroupValue(WholeGroups(init), init, tail);
    assert init + tail == bytes;
  }

  lemma SextetsDecode(bytes: seq<Byte>)
    ensures Phase(|Sextets(bytes)|) != 1
    ensures Decoded(Sextets(bytes)) == bytes
  {
    SextetsCount(bytes);
    SextetsValue(bytes);
    BytesOfValue(bytes);
  }

  // ---------------------------------------------------------------- decoding

  function WithoutSpaces(value: Text): (r: Text)
    ensures !HasSpace(r)
    decreases |value|
  {
    if value == [] then []
    else WithoutSpaces(value[..|value| - 1]) + if IsSpace(value[|value| - 1]) then [] else [value[|value| - 1]]
  }

  function WithoutPadding(value: Text): Text
    decreases |value|
  {
    if value != [] && value[|value| - 1] == PAD then WithoutPadding(value[..|value| - 1]) else value
  }

  predicate AllSymbols(value: Text) {
    forall k :: 0 <= k < |value| ==> Lookup(value[k]) >= 0
  }

  function SextetsOf(value: Text): (r: seq<Sextet>)
    requires AllSymbols(value)
    ensures |r| == |value|
  {
    seq(|value|, i requires 0 <= i < |value| => Lookup(value[i]))
  }

  /** What decoding a text yields: nothing for a text that is not base64. */
  ghost function Meaning(value: Text): Option<seq<Byte>> {
    var symbols := WithoutPadding(WithoutSpaces(value));
    if |symbols| % 4 == 1 || !AllSymbols(symbols) then None else Some(Decoded(SextetsOf(symbols)))
  }

  /** The signed 32-bit result of JavaScript's bitwise operators. */
  function ToInt32(x: int): (r: int)
    ensures -0x8000_0000 <= r < 0x8000_0000
    ensures r % 0x1_0000_0000 == x % 0x1_0000_0000
  {
    (x + 0x8000_0000) % 0x1_0000_0000 - 0x8000_0000
  }

  /** `(buffer << 6) | sextet`: the shift clears the low six bits, so the or is a sum. */
  function ShiftIn(buffer: int, sextet: Sextet): (r: int)
    ensures r % 0x1_0000_0000 == (buffer * 64 + sextet) % 0x1_0000_0000
  {
    ToInt32(buffer * 64) + sextet
  }

  /** The byte taken from the wrapped buffer is the byte of the unbounded number. */
  lemma WrapLosesNothing(buffer: int, value: nat, bits: nat)
    requires bits == 0 || bits == 2 || bits == 4
    requires buffer % 0x1_0000_0000 == value % 0x1_0000_0000
    ensures Shifted(buffer, bits) % 256 == Shifted(value, bits) % 256
  {
    var low := value % 0x1_0000_0000;
    LowByte(buffer, low, buffer / 0x1_0000_0000, bits);
    LowByte(value, low, value / 0x1_0000_0000, bits);
  }

  lemma LowByte(x: int, low: int, high: int, bits: nat)
    requires bits == 0 || bits == 2 || bits == 4
    requires x == high * 0x1_0000_0000 + low && 0 <= low
    ensures Shifted(x, bits) % 256 == Shifted(low, bits) % 256
  {
    ShiftsByTwo(x);
    ShiftsByTwo(low);
    if bits == 0 {
      AddMultiple256(low, high * 0x100_0000);
    } else if bits == 2 {
      LowByteBy4(x, low, high);
    } else {
      LowByteBy16(x, low, high);
    }
  }

  lemma LowByteBy4(x: int, low: int, high: int)
    requires x == high * 0x1_0000_0000 + low
    ensures x / 4 % 256 == low / 4 % 256
  {
    assert x / 4 == low / 4 + high * 0x40_0000 * 256;
    AddMultiple256(low / 4, high * 0x40_0000);
  }

  lemma LowByteBy16(x: int, low: int, high: int)
    requires x == high * 0x1_0000_0000 + low
    ensures x / 16 % 256 == low / 16 % 256
  {
    assert x / 16 == low / 16 + high * 0x10_0000 * 256;
    AddMultiple256(low / 16, high * 0x10_0000);
  }

  lemma AddMultiple256(x: int, k: int)
    ensures (x + k * 256) % 256 == x % 256
  {
  }

  lemma ShiftAndDrop(v: nat, x: Sextet)
    ensures (v * 64 + x) / 64 == v
    ensures (v * 64 + x) / 16 / 256 == v / 64
    ensures (v * 64 + x) / 4 / 256 == v / 16
    ensures (v * 64 + x) / 256 == v / 4
  {
    assert (v * 64 + x) / 16 == v * 4 + x / 16;
    assert (v * 4 + x / 16) / 256 == v / 64;
    assert (v * 64 + x) / 4 == v * 16 + x / 4;
    assert (v * 16 + x / 4) / 256 == v / 16;
  }

  lemma ByteCount(n: nat)
    ensures Phase(n) == 0 ==> Phase(n + 1) == 1 && ByteLength(n + 1) == ByteLength(n)
    ensures Phase(n) > 0 ==> Phase(n + 1) == (if Phase(n) == 3 then 0 else Phase(n) + 1)
    ensures Phase(n) > 0 ==> ByteLength(n + 1) == ByteLength(n) + 1
  {
    PhaseIsRemainder(n);
    PhaseIsRemainder(n + 1);
    ByteLengthIsFloor(n);
    ByteLengthIsFloor(n + 1);
  }

  lemma OneMoreWhole(v: nat, phase: nat, x: Sextet)
    requires phase < 4
    ensures phase == 0 ==> Shifted(v * 64 + x, 6) == v
    ensures phase > 0 ==> Shifted(v * 64 + x, Waiting(phase) - 2) / 256 == Shifted(v, Waiting(phase))
  {
    ShiftAndDrop(v, x);
    ShiftsByTwo(v * 64 + x);
    ShiftsByTwo(v);
  }

  lemma OneMoreByte(longer: nat, v: nat, length: nat)
    requires longer / 256 == v
    ensures BytesOf(longer, length + 1) == BytesOf(v, length) + [longer % 256]
  {
  }

  lemma OneMoreDecoded(v: nat, phase: nat, next: nat, length: nat, x: Sextet, more: nat)
    requires phase < 4 && more == v * 64 + x
    requires next == if phase == 3 then 0 else phase + 1
    ensures phase == 0 ==> BytesOf(Shifted(more, Waiting(next)), length) == BytesOf(Shifted(v, Waiting(phase)), length)
    ensures phase > 0 ==>
              BytesOf(Shifted(more, Waiting(next)), length + 1)
              == BytesOf(Shifted(v, Waiting(phase)), length) + [Shifted(more, Waiting(next)) % 256]
  {
    OneMoreWhole(v, phase, x);
    if phase > 0 {
      OneMoreByte(Shifted(more, Waiting(next)), Shifted(v, Waiting(phase)), length);
    }
  }

  lemma OneMoreValue(s: seq<Sextet>, x: Sextet)
    ensures Value64(s + [x]) == Value64(s) * 64 + x
  {
    assert (s + [x])[..|s|] == s;
  }

  /** One more symbol: every symbol but the first of four completes a byte. */
  lemma OneMoreSymbol(s: seq<Sextet>, x: Sextet)
    ensures Phase(|s|) == 0 ==> Decoded(s + [x]) == Decoded(s)
    ensures Phase(|s|) > 0 ==>
              Decoded(s + [x]) == Decoded(s) + [Shifted(Value64(s + [x]), Waiting(Phase(|s| + 1))) % 256]
  {
    OneMoreValue(s, x);
    var n, t := |s|, s + [x];
    ByteCount(n);
    OneMoreDecoded(Value64(s), Phase(n), Phase(n + 1), ByteLength(n), x, Value64(t));
    assert Decoded(t) == BytesOf(Shifted(Value64(t), Waiting(Phase(n + 1))), ByteLength(n + 1));
  }

  /** The decoder's registers after some symbols: the bits that wait, and the number modulo 2^32. */
  ghost predicate Registers(buffer: int, bits: nat, symbols: seq<Sextet>) {
    bits == Waiting(Phase(|symbols|)) && buffer % 0x1_0000_0000 == Value64(symbols) % 0x1_0000_0000
  }

  /** The body of the decoding loop: shift a symbol in, and take a byte out when eight bits are waiting. */
  method TakeSymbol(buffer: int, bits: nat, sextet: Sextet, ghost symbols: seq<Sextet>) returns (next: int, left: nat, byte: Option<Byte>)
    requires Registers(buffer, bits, symbols)
    ensures Registers(next, left, symbols + [sextet])
    ensures Decoded(symbols + [sextet]) == Decoded(symbols) + if byte.Some? then [byte.value] else []
  {
    OneMoreValue(symbols, sextet);
    OneMoreSymbol(symbols, sextet);
    ByteCount(|symbols|);
    ShiftKeepsValue(buffer, Value64(symbols), sextet);
    next := ShiftIn(buffer, sextet);
    left := bits + 6;
    byte := None;
    if left >= 8 {
      left := left - 8;
      WrapLosesNothing(next, Value64(symbols + [sextet]), left);
      byte := Some(Shifted(next, left) % 256);
    }
  }

  lemma LengthsGrow(n: nat, m: nat)
    requires n <= m
    ensures ByteLength(n) <= ByteLength(m)
  {
    ByteLengthIsFloor(n);
    ByteLengthIsFloor(m);
  }

  lemma OneMoreLookup(value: Text, index: nat)
    requires index < |value| && AllSymbols(value[..index]) && Lookup(value[index]) >= 0
    ensures AllSymbols(value[..index + 1])
    ensures SextetsOf(value[..index + 1]) == SextetsOf(value[..index]) + [Lookup(value[index])]
  {
    assert value[..index + 1] == value[..index] + [value[index]];
  }

  /** The decoding loop: it stops at the first character outside the alphabet. */
  method DecodeSymbols(unpadded: Text, byteLength: nat) returns (result: Option<seq<Byte>>)
    requires byteLength == ByteLength(|unpadded|)
    ensures result == if AllSymbols(unpadded) then Some(Decoded(SextetsOf(unpadded))) else None
  {
    var bytes := new Byte[byteLength](_ => 0);
    var byteIndex, buffer, bitsCollected := 0, 0, 0;
    ghost var symbols: seq<Sextet> := [];
    for index := 0 to |unpadded|
      invariant AllSymbols(unpadded[..index])
      invariant symbols == SextetsOf(unpadded[..index])
      invariant Registers(buffer, bitsCollected, symbols)
      invariant byteIndex == |Decoded(symbols)| <= byteLength
      invariant bytes[..byteIndex] == Decoded(symbols)
    {
      var sextet := Lookup(unpadded[index]);
      if sextet < 0 {
        return None;
      }
      OneMoreLookup(unpadded, index);
      LengthsGrow(index + 1, |unpadded|);
      ghost var more := symbols + [sextet];
      var byte;
      buffer, bitsCollected, byte := TakeSymbol(buffer, bitsCollected, sextet, symbols);
      if byte.Some? {
        bytes[byteIndex] := byte.value;
        byteIndex := byteIndex + 1;
      }
      symbols := more;
    }
    assert unpadded[..|unpadded|] == unpadded && bytes[..byteIndex] == bytes[..];
    return Some(bytes[..]);
  }

  method Base64ToBytes(value: Text) returns (result: Option<seq<Byte>>)
    ensures result == Meaning(value)
  {
    var unpadded := WithoutPadding(WithoutSpaces(value));
    if |unpadded| % 4 == 1 {
      return None;
    }
    ByteLengthIsFloor(|unpadded|);
    result := DecodeSymbols(unpadded, |unpadded| * 3 / 4);
  }

  lemma ShiftKeepsValue(buffer: int, value: nat, sextet: Sextet)
    requires buffer % 0x1_0000_0000 == value % 0x1_0000_0000
    ensures ShiftIn(buffer, sextet) % 0x1_0000_0000 == (value * 64 + sextet) % 0x1_0000_0000
  {
    var m := 0x1_0000_0000;
    var q := buffer / m - value / m;
    assert buffer == value + q * m;
    assert buffer * 64 + sextet == value * 64 + sextet + (q * 64) * m;
    AddMultiple(value * 64 + sextet, q * 64);
  }

  lemma AddMultiple(x: int, k: int)
    ensures (x + k * 0x1_0000_0000) % 0x1_0000_0000 == x % 0x1_0000_0000
  {
  }

  // ---------------------------------------------------------------- the round trip

  lemma {:induction false} NoSpaces(value: Text)
    requires !HasSpace(value)
    ensures WithoutSpaces(value) == value
    decreases |value|
  {
    if value != [] {
      var init := value[..|value| - 1];
      assert forall k :: 0 <= k < |init| ==> init[k] == value[k];
      NoSpaces(init);
      assert !IsSpace(value[|value| - 1]);
    }
  }

  lemma PaddingStripped(symbols: Text, count: nat)
    requires count <= 2
    requires symbols != [] ==> symbols[|symbols| - 1] != PAD
    ensures WithoutPadding(symbols + [PAD, PAD][..count]) == symbols
  {
    assert WithoutPadding(symbols) == symbols;
    if count > 0 {
      var text := symbols + [PAD, PAD][..count];
      PaddingStripped(symbols, count - 1);
      assert text[..|text| - 1] == symbols + [PAD, PAD][..count - 1];
    } else {
      assert symbols + [PAD, PAD][..0] == symbols;
    }
  }

  lemma SymbolsPlain(s: seq<Sextet>)
    ensures forall k :: 0 <= k < |s| ==> !IsSpace(Symbols(s)[k]) && Symbols(s)[k] != PAD
  {
    assert forall k :: 0 <= k < |s| ==> Symbols(s)[k] == Symbol(s[k]);
  }

  lemma EncodedPlain(bytes: seq<Byte>)
    ensures !HasSpace(Encoded(bytes))
    ensures WithoutPadding(Encoded(bytes)) == Symbols(Sextets(bytes))
  {
    SymbolsPlain(Sextets(bytes));
    var count := |Padding(|bytes|)|;
    assert Padding(|bytes|) == [PAD, PAD][..count];
    PaddingStripped(Symbols(Sextets(bytes)), count);
  }

  /** Decoding undoes encoding, for every byte string. */
  lemma DecodeUndoesEncode(bytes: seq<Byte>)
    ensures Meaning(Encoded(bytes)) == Some(bytes)
  {
    EncodedPlain(bytes);
    NoSpaces(Encoded(bytes));
    SextetsDecode(bytes);
    PhaseIsRemainder(|Sextets(bytes)|);
    var symbols := Symbols(Sextets(bytes));
    forall k | 0 <= k < |symbols| ensures Lookup(symbols[k]) == Sextets(bytes)[k] {
      assert symbols[k] == Symbol(Sextets(bytes)[k]);
    }
    assert SextetsOf(symbols) == Sextets(bytes);
  }
}
