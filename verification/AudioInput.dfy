/** The microphone channel (`services/rdp-core/src/audio_input.rs`; the messages are those of section 2.2 of
    MS-RDPEAI): offering back the formats we take, and opening one of them. */
module AudioInput {
  import opened Words

  const VERSION: U32 := 2
  const WAVE_FORMAT_PCM: U16 := 1
  const FORMAT_HEADER := 18

  const ID_VERSION: Byte := 1
  const ID_FORMATS: Byte := 2
  const ID_OPEN: Byte := 3
  const ID_OPEN_REPLY: Byte := 4
  const ID_DATA_INCOMING: Byte := 5
  const ID_DATA: Byte := 6
  const ID_FORMAT_CHANGE: Byte := 7

  // ---------------------------------------------------------------- little-endian numbers

  function Le16(b: seq<Byte>): U16
    requires |b| == 2
  {
    (b[0] as int) + (b[1] as int) * 0x100
  }

  function Le32(b: seq<Byte>): U32
    requires |b| == 4
  {
    (b[0] as int) + (b[1] as int) * 0x100 + (b[2] as int) * 0x1_0000 + (b[3] as int) * 0x100_0000
  }

  function ToLe16(n: U16): (b: seq<Byte>)
    ensures |b| == 2
  {
    [n % 0x100, n / 0x100]
  }

  function ToLe32(n: U32): (b: seq<Byte>)
    ensures |b| == 4
  {
    [n % 0x100, n / 0x100 % 0x100, n / 0x1_0000 % 0x100, n / 0x100_0000]
  }

  lemma Digits(high: int, low: int)
    requires 0 <= low < 0x100
    ensures (high * 0x100 + low) / 0x100 == high && (high * 0x100 + low) % 0x100 == low
  {
  }

  lemma ToLe16Inverts(b: seq<Byte>)
    requires |b| == 2
    ensures ToLe16(Le16(b)) == b
  {
    Digits(b[1], b[0]);
  }

  lemma ToLe32Inverts(b: seq<Byte>)
    requires |b| == 4
    ensures ToLe32(Le32(b)) == b
  {
    var x: int, y: int, z: int, w: int := b[0], b[1], b[2], b[3];
    Digits(w * 0x1_0000 + z * 0x100 + y, x);
    Digits(w * 0x100 + z, y);
    Digits(w, z);
    assert Le32(b) / 0x1_0000 == Le32(b) / 0x100 / 0x100;
    assert Le32(b) / 0x100_0000 == Le32(b) / 0x1_0000 / 0x100;
  }

  lemma Le32Inverts(n: U32)
    ensures Le32(ToLe32(n)) == n
  {
    var a := n / 0x100;
    var b := a / 0x100;
    assert n / 0x1_0000 == b && n / 0x100_0000 == b / 0x100;
  }

  // ---------------------------------------------------------------- formats

  datatype AudioFormat = AudioFormat(formatTag: U16, channels: U16, samplesPerSec: U32, avgBytesPerSec: U32,
                                     blockAlign: U16, bitsPerSample: U16, extra: seq<Byte>)

  predicate IsPlainPcm(f: AudioFormat) {
    f.formatTag == WAVE_FORMAT_PCM && f.bitsPerSample == 16 && f.channels > 0
  }

  function EncodedLen(f: AudioFormat): nat {
    FORMAT_HEADER + |f.extra|
  }

  /** `encode_into`; a length that does not fit its field is written as 0. */
  function EncodedFormat(f: AudioFormat): (r: seq<Byte>)
    ensures |r| == EncodedLen(f)
  {
    ToLe16(f.formatTag) + ToLe16(f.channels) + ToLe32(f.samplesPerSec) + ToLe32(f.avgBytesPerSec)
    + ToLe16(f.blockAlign) + ToLe16(f.bitsPerSample) + ToLe16(if |f.extra| < 0x1_0000 then |f.extra| else 0) + f.extra
  }

  /** The length of the entry the bytes start with, if it is all there. */
  function EntryLength(data: seq<Byte>): (n: Option<nat>)
    ensures n.Some? ==> FORMAT_HEADER <= n.value <= |data|
  {
    if |data| < FORMAT_HEADER || |data| < FORMAT_HEADER + Le16(data[16..18]) then None
    else Some(FORMAT_HEADER + Le16(data[16..18]))
  }

  /** The fields of a whole entry. */
  function FormatOf(entry: seq<Byte>): AudioFormat
    requires |entry| >= FORMAT_HEADER
  {
    AudioFormat(Le16(entry[0..2]), Le16(entry[2..4]), Le32(entry[4..8]), Le32(entry[8..12]), Le16(entry[12..14]), Le16(entry[14..16]),
                entry[FORMAT_HEADER..])
  }

  /** One whole entry and nothing more. */
  predicate IsEntry(entry: seq<Byte>) {
    |entry| >= FORMAT_HEADER && |entry| == FORMAT_HEADER + Le16(entry[16..18])
  }

  predicate AreEntries(entries: seq<seq<Byte>>) {
    forall k {:trigger entries[k]} :: 0 <= k < |entries| ==> IsEntry(entries[k])
  }

  /** The bytes cut into the complete entries they start with, at most `count` of them. */
  function Entries(data: seq<Byte>, count: nat): (r: seq<seq<Byte>>)
    ensures |r| <= count
    ensures AreEntries(r)
    decreases count
  {
    if count == 0 || EntryLength(data).None? then []
    else
      var n := EntryLength(data).value;
      assert data[..n][16..18] == data[16..18];
      [data[..n]] + Entries(data[n..], count - 1)
  }

  function FormatsOf(entries: seq<seq<Byte>>): (r: seq<AudioFormat>)
    requires AreEntries(entries)
    ensures |r| == |entries|
    ensures forall k :: 0 <= k < |r| ==> r[k] == FormatOf(entries[k])
  {
    seq(|entries|, k requires 0 <= k < |entries| => FormatOf(entries[k]))
  }

  /** An entry encodes back to its own bytes. */
  lemma EntryEncodes(entry: seq<Byte>)
    requires IsEntry(entry)
    ensures EncodedFormat(FormatOf(entry)) == entry
  {
    ToLe16Inverts(entry[0..2]);
    ToLe16Inverts(entry[2..4]);
    ToLe32Inverts(entry[4..8]);
    ToLe32Inverts(entry[8..12]);
    ToLe16Inverts(entry[12..14]);
    ToLe16Inverts(entry[14..16]);
    ToLe16Inverts(entry[16..18]);
    assert |entry| - FORMAT_HEADER == Le16(entry[16..18]);
  }

  method ParseFormats(data: seq<Byte>, count: U32) returns (formats: seq<AudioFormat>)
    ensures formats == FormatsOf(Entries(data, count))
  {
    formats := [];
    var rest := data;
    var n: int := 0;
    while n < count
      invariant 0 <= n <= count
      invariant formats + Parsed(rest, count - n) == Parsed(data, count)
      decreases count - n
    {
      if |rest| < FORMAT_HEADER {
        NothingParsed(rest, count - n, formats);
        return;
      }
      var extraLen := Le16([rest[16], rest[17]]);
      assert [rest[16], rest[17]] == rest[16..18];
      if |rest| < FORMAT_HEADER + extraLen {
        NothingParsed(rest, count - n, formats);
        return;
      }
      var entry := rest[..FORMAT_HEADER + extraLen];
      OneParsed(rest, count - n, entry, formats);
      formats := formats + [FormatOf(entry)];
      rest := rest[FORMAT_HEADER + extraLen..];
      n := n + 1;
    }
    NothingParsed(rest, 0, formats);
  }

  function Parsed(data: seq<Byte>, count: nat): seq<AudioFormat> {
    FormatsOf(Entries(data, count))
  }

  lemma OneParsed(rest: seq<Byte>, count: nat, entry: seq<Byte>, before: seq<AudioFormat>)
    requires count > 0 && EntryLength(rest) == Some(|entry|) && entry == rest[..|entry|]
    ensures before + Parsed(rest, count) == (before + [FormatOf(entry)]) + Parsed(rest[|entry|..], count - 1)
  {
    var later := Entries(rest[|entry|..], count - 1);
    assert Entries(rest, count) == [entry] + later;
    assert FormatsOf([entry] + later) == [FormatOf(entry)] + FormatsOf(later);
    Appended(before, FormatOf(entry), FormatsOf(later));
  }

  lemma Appended(a: seq<AudioFormat>, x: AudioFormat, b: seq<AudioFormat>)
    ensures a + ([x] + b) == (a + [x]) + b
  {
  }

  lemma NothingParsed(rest: seq<Byte>, count: nat, before: seq<AudioFormat>)
    requires count == 0 || EntryLength(rest).None?
    ensures before + Parsed(rest, count) == before
  {
    assert Parsed(rest, count) == [];
  }

  /** The entries are a prefix of the bytes, and stop only at the count or where no complete entry starts. */
  lemma {:induction false} EntriesAreAll(data: seq<Byte>, count: nat)
    ensures var entries := Entries(data, count);
            && Flat(entries) <= data
            && var rest := data[|Flat(entries)|..];
               |entries| == count || |rest| < FORMAT_HEADER || |rest| < FORMAT_HEADER + Le16(rest[16..18])
    decreases count
  {
    if count > 0 && EntryLength(data).Some? {
      var n := EntryLength(data).value;
      var later := Entries(data[n..], count - 1);
      EntriesAreAll(data[n..], count - 1);
      FlatCons(data[..n], later);
      Rests(data, n, Flat(later));
    }
  }

  lemma Rests(data: seq<Byte>, n: nat, later: seq<Byte>)
    requires n <= |data| && later <= data[n..]
    ensures data[..n] + later <= data
    ensures data[|data[..n] + later|..] == data[n..][|later|..]
  {
    assert data == data[..n] + data[n..];
  }

  /** Which entries are offered back, read from their bytes: 16-bit PCM with a channel. */
  lemma PlainMeans(entry: seq<Byte>)
    requires IsEntry(entry)
    ensures IsPlainPcm(FormatOf(entry)) <==> Le16(entry[0..2]) == 1 && Le16(entry[14..16]) == 16 && Le16(entry[2..4]) > 0
  {
  }

  // ---------------------------------------------------------------- what is accepted

  datatype Accepted = Accepted(wire: seq<Byte>, format: AudioFormat)

  /** The plain PCM formats, in order, with the bytes they encode to. */
  function AcceptedOf(formats: seq<AudioFormat>): seq<Accepted>
    decreases |formats|
  {
    if formats == [] then []
    else
      var f := formats[|formats| - 1];
      AcceptedOf(formats[..|formats| - 1]) + if IsPlainPcm(f) then [Accepted(EncodedFormat(f), f)] else []
  }

  function Wires(accepted: seq<Accepted>): (r: seq<seq<Byte>>)
    ensures |r| == |accepted| && forall k :: 0 <= k < |r| ==> r[k] == accepted[k].wire
  {
    seq(|accepted|, k requires 0 <= k < |accepted| => accepted[k].wire)
  }

  /** The entries that hold plain PCM, in order. */
  function PlainEntries(entries: seq<seq<Byte>>): seq<seq<Byte>>
    requires AreEntries(entries)
    decreases |entries|
  {
    if entries == [] then []
    else
      var e := entries[|entries| - 1];
      PlainEntries(entries[..|entries| - 1]) + if IsPlainPcm(FormatOf(e)) then [e] else []
  }

  lemma {:induction false} AcceptedAreEntries(entries: seq<seq<Byte>>)
    requires AreEntries(entries)
    ensures Wires(AcceptedOf(FormatsOf(entries))) == PlainEntries(entries)
    decreases |entries|
  {
    if entries != [] {
      var init, e := entries[..|entries| - 1], entries[|entries| - 1];
      AcceptedAreEntries(init);
      EntryEncodes(e);
      assert FormatsOf(entries)[..|entries| - 1] == FormatsOf(init);
      assert FormatsOf(entries)[|entries| - 1] == FormatOf(e);
    }
  }

  // ---------------------------------------------------------------- messages

  datatype Outgoing =
    | Version(version: U32)
    | Formats(formats: seq<seq<Byte>>)
    | OpenReply(result: U32)
    | FormatChange(index: U32)
    | DataIncoming
    | Data(samples: seq<Byte>)

  function Flat(parts: seq<seq<Byte>>): seq<Byte>
    decreases |parts|
  {
    if parts == [] then [] else Flat(parts[..|parts| - 1]) + parts[|parts| - 1]
  }

  function TotalLength(parts: seq<seq<Byte>>): nat
    decreases |parts|
  {
    if parts == [] then 0 else TotalLength(parts[..|parts| - 1]) + |parts[|parts| - 1]|
  }

  /** `u32::try_from(n).unwrap_or(0)`. */
  function OrZero(n: nat): U32 {
    if n < 0x1_0000_0000 then n else 0
  }

  function Encoded(m: Outgoing): seq<Byte> {
    match m
    case Version(v) => [ID_VERSION] + ToLe32(v)
    case Formats(fs) => [ID_FORMATS] + ToLe32(OrZero(|fs|)) + ToLe32(OrZero(1 + 4 + 4 + TotalLength(fs))) + Flat(fs)
    case OpenReply(r) => [ID_OPEN_REPLY] + ToLe32(r)
    case FormatChange(i) => [ID_FORMAT_CHANGE] + ToLe32(i)
    case DataIncoming => [ID_DATA_INCOMING]
    case Data(s) => [ID_DATA] + s
  }

  function Size(m: Outgoing): nat {
    match m
    case Version(_) => 1 + 4
    case Formats(fs) => 1 + 4 + 4 + TotalLength(fs)
    case OpenReply(_) => 1 + 4
    case FormatChange(_) => 1 + 4
    case DataIncoming => 1
    case Data(s) => 1 + |s|
  }

  lemma {:induction false} FlatLength(parts: seq<seq<Byte>>)
    ensures |Flat(parts)| == TotalLength(parts)
    decreases |parts|
  {
    if parts != [] {
      FlatLength(parts[..|parts| - 1]);
    }
  }

  /** The size announced for a message is the number of bytes written, and so is the size field of a
      format list that is below 2^32, and 0 otherwise; its count field is the number of entries, if that is
      below 2^32, and 0 otherwise. */
  lemma SizeIsExact(m: Outgoing)
    ensures |Encoded(m)| == Size(m)
    ensures m.Formats? ==>
              && Le32(Encoded(m)[1..5]) == (if |m.formats| < 0x1_0000_0000 then |m.formats| else 0)
              && Le32(Encoded(m)[5..9]) == (if |Encoded(m)| < 0x1_0000_0000 then |Encoded(m)| else 0)
              && Encoded(m)[9..] == Flat(m.formats)
  {
    if m.Formats? {
      FlatLength(m.formats);
      var count, size := OrZero(|m.formats|), OrZero(1 + 4 + 4 + TotalLength(m.formats));
      Le32Inverts(count);
      Le32Inverts(size);
      assert Encoded(m)[1..5] == ToLe32(count) && Encoded(m)[5..9] == ToLe32(size) && Encoded(m)[9..] == Flat(m.formats);
    }
  }

  // ---------------------------------------------------------------- the client

  datatype Error = Empty | Truncated | BadIndex

  datatype Capture = Capture(sampleRate: U32, channels: U16, bitsPerSample: U16, framesPerPacket: U32)

  function CaptureOf(f: AudioFormat, framesPerPacket: U32): Capture {
    Capture(f.samplesPerSec, f.channels, f.bitsPerSample, framesPerPacket)
  }

  /** What one server message does: the formats accepted from then on, the messages sent back, the capture
      format reported, and whether the channel was opened. */
  datatype Outcome = Outcome(accepted: seq<Accepted>, replies: seq<Outgoing>, capture: Option<Capture>, opens: bool)

  /** The formats accepted from a FORMATS body. */
  function AcceptedFrom(body: seq<Byte>): seq<Accepted>
    requires |body| >= 8
  {
    AcceptedOf(FormatsOf(Entries(body[8..], Le32(body[..4]))))
  }

  function Processed(accepted: seq<Accepted>, payload: seq<Byte>): Result<Outcome, Error> {
    if payload == [] then Err(Empty)
    else
      var id, body := payload[0], payload[1..];
      if id == ID_VERSION then
        if |body| < 4 then Err(Truncated)
        else if Le32(body[..4]) > VERSION then Ok(Outcome(accepted, [], None, false))
        else Ok(Outcome(accepted, [Version(VERSION)], None, false))
      else if id == ID_FORMATS then
        if |body| < 8 then Err(Truncated)
        else Ok(Outcome(AcceptedFrom(body), [DataIncoming, Formats(Wires(AcceptedFrom(body)))], None, false))
      else if id == ID_OPEN then
        if |body| < 8 then Err(Truncated)
        else
          var index := Le32(body[4..8]);
          if index >= |accepted| then Err(BadIndex)
          else Ok(Outcome(accepted, [FormatChange(index), OpenReply(0)], Some(CaptureOf(accepted[index].format, Le32(body[..4]))), true))
      else if id == ID_FORMAT_CHANGE then
        if |body| < 4 then Err(Truncated)
        else
          var index := Le32(body[..4]);
          Ok(Outcome(accepted, [], if index < |accepted| then Some(CaptureOf(accepted[index].format, 0)) else None, false))
      else Ok(Outcome(accepted, [], None, false))
  }

  class Client {
    var accepted: seq<Accepted>

    /** The flag the sender of samples looks at; a new client finds it as the last one left it. */
    var ready: bool

    constructor (ready: bool)
      ensures accepted == [] && this.ready == ready
    {
      accepted, this.ready := [], ready;
    }

    method Process(payload: seq<Byte>) returns (result: Result<seq<Outgoing>, Error>, capture: Option<Capture>)
      modifies this
      ensures var p := Processed(old(accepted), payload);
              && result == (if p.Ok? then Ok(p.value.replies) else Err(p.error))
              && capture == (if p.Ok? then p.value.capture else None)
              && accepted == (if p.Ok? then p.value.accepted else old(accepted))
              && ready == (old(ready) || (p.Ok? && p.value.opens))
    {
      capture := None;
      if payload == [] {
        return Err(Empty), None;
      }
      var id, body := payload[0], payload[1..];
      if id == ID_VERSION {
        if |body| < 4 {
          return Err(Truncated), None;
        }
        return Ok(if Le32(body[..4]) > VERSION then [] else [Version(VERSION)]), None;
      } else if id == ID_FORMATS {
        if |body| < 8 {
          return Err(Truncated), None;
        }
        var formats := ParseFormats(body[8..], Le32(body[..4]));
        accepted := Selected(formats);
        return Ok([DataIncoming, Formats(Wires(accepted))]), None;
      } else if id == ID_OPEN {
        if |body| < 8 {
          return Err(Truncated), None;
        }
        var index := Le32(body[4..8]);
        if index >= |accepted| {
          return Err(BadIndex), None;
        }
        ready := true;
        return Ok([FormatChange(index), OpenReply(0)]), Some(CaptureOf(accepted[index].format, Le32(body[..4])));
      } else if id == ID_FORMAT_CHANGE {
        if |body| < 4 {
          return Err(Truncated), None;
        }
        var index := Le32(body[..4]);
        if index < |accepted| {
          capture := Some(CaptureOf(accepted[index].format, 0));
        }
        return Ok([]), capture;
      }
      return Ok([]), None;
    }

    /** The filter over the formats of a list. */
    method Selected(formats: seq<AudioFormat>) returns (r: seq<Accepted>)
      ensures r == AcceptedOf(formats)
    {
      r := [];
      for index := 0 to |formats|
        invariant r == AcceptedOf(formats[..index])
      {
        assert formats[..index + 1][..index] == formats[..index];
        if IsPlainPcm(formats[index]) {
          r := r + [Accepted(EncodedFormat(formats[index]), formats[index])];
        }
      }
      assert formats[..|formats|] == formats;
    }
  }

  // ---------------------------------------------------------------- what the server gets back

  /** The answer to a format list offers, byte for byte and in order, the complete plain PCM entries of that
      list, and nothing else. */
  lemma ReplyEchoesEntries(accepted: seq<Accepted>, body: seq<Byte>)
    requires |body| >= 8
    ensures var p := Processed(accepted, [ID_FORMATS] + body);
            p.Ok? && p.value.replies == [DataIncoming, Formats(PlainEntries(Entries(body[8..], Le32(body[..4]))))]
  {
    assert ([ID_FORMATS] + body)[1..] == body;
    AcceptedAreEntries(Entries(body[8..], Le32(body[..4])));
  }

  lemma {:induction false} EntriesFit(data: seq<Byte>, count: nat)
    ensures TotalLength(Entries(data, count)) <= |data|
    ensures Flat(Entries(data, count)) <= data
    decreases count
  {
    if count > 0 && EntryLength(data).Some? {
      var n := EntryLength(data).value;
      var rest := Entries(data[n..], count - 1);
      EntriesFit(data[n..], count - 1);
      FlatCons(data[..n], rest);
      assert data[..n] + Flat(rest) <= data by {
        assert data == data[..n] + data[n..];
      }
    }
  }

  lemma {:induction false} FlatCons(first: seq<Byte>, rest: seq<seq<Byte>>)
    ensures Flat([first] + rest) == first + Flat(rest)
    ensures TotalLength([first] + rest) == |first| + TotalLength(rest)
    decreases |rest|
  {
    var all := [first] + rest;
    if rest != [] {
      FlatCons(first, rest[..|rest| - 1]);
      assert all[..|all| - 1] == [first] + rest[..|rest| - 1];
    } else {
      assert all[..0] == [] && all == [first];
    }
  }

  lemma {:induction false} PlainFit(entries: seq<seq<Byte>>)
    requires AreEntries(entries)
    ensures TotalLength(PlainEntries(entries)) <= TotalLength(entries)
    ensures |PlainEntries(entries)| <= |entries|
    decreases |entries|
  {
    if entries != [] {
      var init, e := entries[..|entries| - 1], entries[|entries| - 1];
      PlainFit(init);
      if IsPlainPcm(FormatOf(e)) {
        assert (PlainEntries(init) + [e])[..|PlainEntries(init)|] == PlainEntries(init);
      } else {
        assert PlainEntries(init) + [] == PlainEntries(init);
      }
    }
  }

  /** The reply is no longer than the list it answers, and its count and size fields are exact. */
  lemma ReplyIsExact(body: seq<Byte>)
    requires 8 <= |body| < 0xFFFF_FFFF
    ensures var entries := PlainEntries(Entries(body[8..], Le32(body[..4])));
            var bytes := Encoded(Formats(entries));
            && |bytes| <= |body| + 1
            && bytes[0] == ID_FORMATS && Le32(bytes[1..5]) == |entries| && Le32(bytes[5..9]) == |bytes| && bytes[9..] == Flat(entries)
  {
    var entries := Entries(body[8..], Le32(body[..4]));
    EntriesFit(body[8..], Le32(body[..4]));
    PlainFit(entries);
    SizeIsExact(Formats(PlainEntries(entries)));
  }

  // ---------------------------------------------------------------- runs

  /** A session with the server: what is accepted, and the list of formats last sent. */
  datatype Session = Session(accepted: seq<Accepted>, offered: seq<seq<Byte>>)

  const FRESH := Session([], [])

  function LastFormats(replies: seq<Outgoing>, before: seq<seq<Byte>>): seq<seq<Byte>>
    decreases |replies|
  {
    if replies == [] then before
    else if replies[|replies| - 1].Formats? then replies[|replies| - 1].formats
    else LastFormats(replies[..|replies| - 1], before)
  }

  function Next(s: Session, payload: seq<Byte>): Session {
    var p := Processed(s.accepted, payload);
    if p.Err? then s else Session(p.value.accepted, LastFormats(p.value.replies, s.offered))
  }

  function Run(payloads: seq<seq<Byte>>): Session
    decreases |payloads|
  {
    if payloads == [] then FRESH else Next(Run(payloads[..|payloads| - 1]), payloads[|payloads| - 1])
  }

  /** What is accepted is what was last offered, and each format is what its bytes say. */
  ghost predicate Agrees(s: Session) {
    && s.offered == Wires(s.accepted)
    && forall k :: 0 <= k < |s.accepted| ==>
      IsEntry(s.accepted[k].wire) && FormatOf(s.accepted[k].wire) == s.accepted[k].format && IsPlainPcm(s.accepted[k].format)
  }

  lemma {:induction false} AcceptedAgree(entries: seq<seq<Byte>>)
    requires AreEntries(entries)
    ensures Agrees(Session(AcceptedOf(FormatsOf(entries)), PlainEntries(entries)))
    decreases |entries|
  {
    AcceptedAreEntries(entries);
    if entries != [] {
      var init, e := entries[..|entries| - 1], entries[|entries| - 1];
      AcceptedAgree(init);
      EntryEncodes(e);
      assert FormatsOf(entries)[..|entries| - 1] == FormatsOf(init);
      assert FormatsOf(entries)[|entries| - 1] == FormatOf(e);
    }
  }

  lemma NextAgrees(s: Session, payload: seq<Byte>)
    requires Agrees(s)
    ensures Agrees(Next(s, payload))
  {
    var p := Processed(s.accepted, payload);
    if p.Ok? && payload[0] == ID_FORMATS {
      var body := payload[1..];
      AcceptedAgree(Entries(body[8..], Le32(body[..4])));
      AcceptedAreEntries(Entries(body[8..], Le32(body[..4])));
      var replies := p.value.replies;
      assert replies[|replies| - 1] == Formats(Wires(p.value.accepted));
    } else if p.Ok? {
      NoFormats(p.value.replies, s.offered);
    }
  }

  lemma {:induction false} NoFormats(replies: seq<Outgoing>, before: seq<seq<Byte>>)
    requires forall k :: 0 <= k < |replies| ==> !replies[k].Formats?
    ensures LastFormats(replies, before) == before
    decreases |replies|
  {
    if replies != [] {
      NoFormats(replies[..|replies| - 1], before);
    }
  }

  lemma {:induction false} RunAgrees(payloads: seq<seq<Byte>>)
    ensures Agrees(Run(payloads))
    decreases |payloads|
  {
    if payloads != [] {
      RunAgrees(payloads[..|payloads| - 1]);
      NextAgrees(Run(payloads[..|payloads| - 1]), payloads[|payloads| - 1]);
    }
  }

  /** The capture format that a reported capture must state for an entry offered on the wire, read from
      the entry's bytes (section 2.2.2.1 of MS-RDPEAI): channels at 2, samples per second at 4, bits at 14. */
  predicate Describes(capture: Capture, entry: seq<Byte>, framesPerPacket: U32) {
    && FORMAT_HEADER <= |entry|
    && capture.channels == Le16(entry[2..4]) && 0 < capture.channels
    && capture.sampleRate == Le32(entry[4..8])
    && capture.bitsPerSample == Le16(entry[14..16]) == 16
    && Le16(entry[0..2]) == WAVE_FORMAT_PCM
    && capture.framesPerPacket == framesPerPacket
  }

  /** In every run, an OPEN succeeds exactly for an index into the list last offered; it then confirms that
      index, reports what the bytes of the entry there say, and leaves the list as it is. */
  lemma OpenReportsOffered(payloads: seq<seq<Byte>>, body: seq<Byte>)
    ensures var s := Run(payloads);
            var p := Processed(s.accepted, [ID_OPEN] + body);
            if |body| < 8 then p == Err(Truncated)
            else
              var index := Le32(body[4..8]);
              if index < |s.offered| then
                && p.Ok? && p.value.accepted == s.accepted && p.value.opens
                && p.value.replies == [FormatChange(index), OpenReply(0)]
                && p.value.capture.Some? && Describes(p.value.capture.value, s.offered[index], Le32(body[..4]))
              else p == Err(BadIndex)
  {
    RunAgrees(payloads);
    assert ([ID_OPEN] + body)[1..] == body;
    if |body| >= 8 && Le32(body[4..8]) < |Run(payloads).offered| {
      assert IsEntry(Run(payloads).accepted[Le32(body[4..8])].wire);
    }
  }

  /** In every run, a FORMAT_CHANGE reports what the bytes of the entry at its index say, with no packet
      size; for an index beyond the list it reports nothing. Nothing is answered and nothing else changes. */
  lemma FormatChangeReports(payloads: seq<seq<Byte>>, body: seq<Byte>)
    ensures var s := Run(payloads);
            var p := Processed(s.accepted, [ID_FORMAT_CHANGE] + body);
            if |body| < 4 then p == Err(Truncated)
            else
              var index := Le32(body[..4]);
              && p.Ok? && p.value.replies == [] && p.value.accepted == s.accepted && !p.value.opens
              && (p.value.capture.Some? <==> index < |s.offered|)
              && (index < |s.offered| ==> Describes(p.value.capture.value, s.offered[index], 0))
  {
    RunAgrees(payloads);
    assert ([ID_FORMAT_CHANGE] + body)[1..] == body;
    if |body| >= 4 && Le32(body[..4]) < |Run(payloads).offered| {
      assert IsEntry(Run(payloads).accepted[Le32(body[..4])].wire);
    }
  }

  /** A VERSION is answered with our own version, byte for byte, unless the server's is newer. */
  lemma VersionAnswered(accepted: seq<Accepted>, body: seq<Byte>)
    ensures var p := Processed(accepted, [ID_VERSION] + body);
            if |body| < 4 then p == Err(Truncated)
            else
              && p.Ok? && p.value.accepted == accepted && p.value.capture == None && !p.value.opens
              && if Le32(body[..4]) > VERSION then p.value.replies == []
                 else |p.value.replies| == 1 && Encoded(p.value.replies[0]) == [ID_VERSION, 2, 0, 0, 0]
  {
    assert ([ID_VERSION] + body)[1..] == body;
    assert Encoded(Version(VERSION)) == [ID_VERSION] + [2, 0, 0, 0];
  }

  /** An empty message is an error, and any other message is ignored. */
  lemma OthersIgnored(accepted: seq<Accepted>, payload: seq<Byte>)
    ensures payload == [] ==> Processed(accepted, payload) == Err(Empty)
    ensures payload != [] && payload[0] !in {ID_VERSION, ID_FORMATS, ID_OPEN, ID_FORMAT_CHANGE} ==>
              Processed(accepted, payload) == Ok(Outcome(accepted, [], None, false))
  {
  }
}
