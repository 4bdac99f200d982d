/** Frames on a byte stream (`services/core-framing/src/lib.rs`). */
module Framing {
  import opened Words

  const HEADER_SIZE := 9
  const MAX_METADATA: U32 := 8 * 1024 * 1024
  const MAX_PAYLOAD: U32 := 256 * 1024 * 1024

  datatype Frame = Frame(kind: Byte, metadata: seq<Byte>, payload: seq<Byte>)

  datatype Error = UnexpectedEof | InvalidData | InvalidInput

  // ---------------------------------------------------------------- 32-bit numbers, big endian

  function ToBe(n: U32): (b: seq<Byte>)
    ensures |b| == 4
  {
    [n / 0x100_0000, n / 0x1_0000 % 0x100, n / 0x100 % 0x100, n % 0x100]
  }

  function FromBe(b: seq<Byte>): U32
    requires |b| == 4
  {
    (b[0] as int) * 0x100_0000 + (b[1] as int) * 0x1_0000 + (b[2] as int) * 0x100 + b[3]
  }

  lemma FromToBe(n: U32)
    ensures FromBe(ToBe(n)) == n
  {
    var a := n / 0x100;
    var b := a / 0x100;
    assert n / 0x1_0000 == b && n / 0x100_0000 == b / 0x100;
  }

  lemma Digits(high: int, low: int)
    requires 0 <= low < 0x100
    ensures (high * 0x100 + low) / 0x100 == high && (high * 0x100 + low) % 0x100 == low
  {
  }

  lemma ToFromBe(b: seq<Byte>)
    requires |b| == 4
    ensures ToBe(FromBe(b)) == b
  {
    var x: int, y: int, z: int, w: int := b[0], b[1], b[2], b[3];
    Digits(x * 0x1_0000 + y * 0x100 + z, w);
    Digits(x * 0x100 + y, z);
    Digits(x, y);
    assert FromBe(b) / 0x1_0000 == FromBe(b) / 0x100 / 0x100;
    assert FromBe(b) / 0x100_0000 == FromBe(b) / 0x1_0000 / 0x100;
  }

  // ---------------------------------------------------------------- writing

  predicate FitsHeader(f: Frame) {
    |f.metadata| < 0x1_0000_0000 && |f.payload| < 0x1_0000_0000
  }

  /** The frames the other side will accept. */
  predicate WithinCaps(f: Frame) {
    |f.metadata| <= MAX_METADATA && |f.payload| <= MAX_PAYLOAD
  }

  function Header(kind: Byte, metadata: U32, payload: U32): (h: seq<Byte>)
    ensures |h| == HEADER_SIZE
  {
    [kind] + ToBe(metadata) + ToBe(payload)
  }

  function Encoded(f: Frame): (r: seq<Byte>)
    requires FitsHeader(f)
    ensures |r| == HEADER_SIZE + |f.metadata| + |f.payload|
  {
    Header(f.kind, |f.metadata|, |f.payload|) + f.metadata + f.payload
  }

  /** The bytes of a frame: its kind, the two lengths most significant byte first, metadata, payload. */
  lemma FrameBytes(f: Frame)
    requires FitsHeader(f)
    ensures var e := Encoded(f);
            && |e| == 9 + |f.metadata| + |f.payload| && e[0] == f.kind
            && (e[1] as int) * 0x100_0000 + (e[2] as int) * 0x1_0000 + (e[3] as int) * 0x100 + e[4] == |f.metadata|
            && (e[5] as int) * 0x100_0000 + (e[6] as int) * 0x1_0000 + (e[7] as int) * 0x100 + e[8] == |f.payload|
            && e[9..9 + |f.metadata|] == f.metadata && e[9 + |f.metadata|..] == f.payload
  {
    var metadata, payload := ToBe(|f.metadata|), ToBe(|f.payload|);
    FromToBe(|f.metadata|);
    FromToBe(|f.payload|);
    var h := Header(f.kind, |f.metadata|, |f.payload|);
    assert h[1] == metadata[0] && h[2] == metadata[1] && h[3] == metadata[2] && h[4] == metadata[3];
    assert h[5] == payload[0] && h[6] == payload[1] && h[7] == payload[2] && h[8] == payload[3];
    assert Encoded(f) == h + (f.metadata + f.payload);
  }

  method CopyInto(header: array<Byte>, at: nat, bytes: seq<Byte>)
    requires at + |bytes| <= header.Length
    modifies header
    ensures header[..] == old(header[..at]) + bytes + old(header[at + |bytes|..])
  {
    for k := 0 to |bytes|
      invariant header[..] == old(header[..at]) + bytes[..k] + old(header[at + k..])
    {
      header[at + k] := bytes[k];
    }
    assert bytes[..|bytes|] == bytes;
  }

  method EncodeHeader(kind: Byte, metadataLength: nat, payloadLength: nat) returns (result: Result<array<Byte>, Error>)
    ensures result.Ok? <==> metadataLength < 0x1_0000_0000 && payloadLength < 0x1_0000_0000
    ensures result.Ok? ==> fresh(result.value) && result.value[..] == Header(kind, metadataLength, payloadLength)
    ensures result.Err? ==> result.error == InvalidInput
  {
    if metadataLength >= 0x1_0000_0000 || payloadLength >= 0x1_0000_0000 {
      return Err(InvalidInput);
    }
    var header := new Byte[HEADER_SIZE](_ => 0);
    header[0] := kind;
    assert header[..1] == [kind];
    CopyInto(header, 1, ToBe(metadataLength));
    assert header[..5] == [kind] + ToBe(metadataLength);
    CopyInto(header, 5, ToBe(payloadLength));
    return Ok(header);
  }

  class Writer {
    var written: seq<Byte>

    constructor ()
      ensures written == []
    {
      written := [];
    }

    method WriteAll(bytes: seq<Byte>)
      modifies this
      ensures written == old(written) + bytes
    {
      written := written + bytes;
    }

    /** One frame, or nothing at all. */
    method WriteFrame(kind: Byte, metadata: seq<Byte>, payload: seq<Byte>) returns (result: Result<(), Error>)
      modifies this
      ensures var f := Frame(kind, metadata, payload);
              result == (if FitsHeader(f) then Ok(()) else Err(InvalidInput))
              && written == old(written) + if FitsHeader(f) then Encoded(f) else []
    {
      var header := EncodeHeader(kind, |metadata|, |payload|);
      if header.Err? {
        return Err(header.error);
      }
      ghost var h, before := header.value[..], written;
      assert before + h + metadata + payload == before + (h + metadata + payload);
      assert payload == [] ==> before + h + metadata == before + h + metadata + payload;
      WriteAll(header.value[..]);
      WriteAll(metadata);
      if payload != [] {
        WriteAll(payload);
      }
      return Ok(());
    }
  }

  // ---------------------------------------------------------------- reading

  /** The first frame of a stream and what follows it. */
  function Parsed(s: seq<Byte>): (r: Result<(Frame, seq<Byte>), Error>)
    ensures r.Ok? ==> |r.value.1| < |s|
  {
    if |s| < HEADER_SIZE then Err(UnexpectedEof)
    else
      var metadata, payload := FromBe(s[1..5]), FromBe(s[5..9]);
      if metadata > MAX_METADATA || payload > MAX_PAYLOAD then Err(InvalidData)
      else if |s| < HEADER_SIZE + metadata + payload then Err(UnexpectedEof)
      else
        var body := s[HEADER_SIZE..];
        Ok((Frame(s[0], body[..metadata], body[metadata..metadata + payload]), body[metadata + payload..]))
  }

  class Reader {
    var rest: seq<Byte>

    constructor (s: seq<Byte>)
      ensures rest == s
    {
      rest := s;
    }

    /** All of `n` bytes or an error; after an error nothing is said of the position. */
    method ReadExact(n: nat) returns (result: Result<seq<Byte>, Error>)
      modifies this
      ensures result.Ok? <==> n <= |old(rest)|
      ensures result.Ok? ==> result.value == old(rest)[..n] && rest == old(rest)[n..]
      ensures result.Err? ==> result.error == UnexpectedEof
    {
      if n > |rest| {
        rest := [];
        return Err(UnexpectedEof);
      }
      result := Ok(rest[..n]);
      rest := rest[n..];
    }

    method ReadFrame() returns (result: Result<Frame, Error>)
      modifies this
      ensures var parsed := Parsed(old(rest));
              result == (if parsed.Ok? then Ok(parsed.value.0) else Err(parsed.error))
              && (parsed.Ok? ==> rest == parsed.value.1)
    {
      var header := ReadExact(HEADER_SIZE);
      if header.Err? {
        return Err(header.error);
      }
      var kind := header.value[0];
      var metadataLength := FromBe([header.value[1], header.value[2], header.value[3], header.value[4]]);
      var payloadLength := FromBe([header.value[5], header.value[6], header.value[7], header.value[8]]);
      assert [header.value[1], header.value[2], header.value[3], header.value[4]] == old(rest)[1..5];
      assert [header.value[5], header.value[6], header.value[7], header.value[8]] == old(rest)[5..9];
      if metadataLength > MAX_METADATA {
        return Err(InvalidData);
      }
      if payloadLength > MAX_PAYLOAD {
        return Err(InvalidData);
      }
      var metadata := ReadExact(metadataLength);
      if metadata.Err? {
        return Err(metadata.error);
      }
      var payload := ReadExact(payloadLength);
      if payload.Err? {
        return Err(payload.error);
      }
      ghost var body := old(rest)[HEADER_SIZE..];
      assert metadata.value == body[..metadataLength];
      assert payload.value == body[metadataLength..metadataLength + payloadLength];
      assert rest == body[metadataLength + payloadLength..];
      return Ok(Frame(kind, metadata.value, payload.value));
    }
  }

  // ---------------------------------------------------------------- one frame there and back

  lemma HeaderParts(f: Frame, rest: seq<Byte>)
    requires FitsHeader(f)
    ensures var s := Encoded(f) + rest;
            && s[0] == f.kind && FromBe(s[1..5]) == |f.metadata| && FromBe(s[5..9]) == |f.payload|
            && s[HEADER_SIZE..] == f.metadata + f.payload + rest
  {
    var s := Encoded(f) + rest;
    assert s[1..5] == ToBe(|f.metadata|) && s[5..9] == ToBe(|f.payload|);
    FromToBe(|f.metadata|);
    FromToBe(|f.payload|);
  }

  /** A frame that was written reads back, with exactly what follows it left, if and only if it is within
      the caps; a larger one is refused, not misread. */
  lemma WrittenFrameReads(f: Frame, rest: seq<Byte>)
    requires FitsHeader(f)
    ensures Parsed(Encoded(f) + rest) == if WithinCaps(f) then Ok((f, rest)) else Err(InvalidData)
  {
    HeaderParts(f, rest);
    var body := f.metadata + f.payload + rest;
    assert body[..|f.metadata|] == f.metadata;
    assert body[|f.metadata|..|f.metadata| + |f.payload|] == f.payload;
    assert body[|f.metadata| + |f.payload|..] == rest;
  }

  lemma HeaderOf(s: seq<Byte>)
    requires |s| >= HEADER_SIZE
    ensures Header(s[0], FromBe(s[1..5]), FromBe(s[5..9])) == s[..HEADER_SIZE]
  {
    ToFromBe(s[1..5]);
    ToFromBe(s[5..9]);
    assert s[..HEADER_SIZE] == [s[0]] + s[1..5] + s[5..9];
  }

  /** Whatever the bytes, a frame that is read is the frame its bytes encode. */
  lemma ReadFrameWasWritten(s: seq<Byte>)
    requires Parsed(s).Ok?
    ensures var (f, rest) := Parsed(s).value; WithinCaps(f) && s == Encoded(f) + rest
  {
    var (f, rest) := Parsed(s).value;
    HeaderOf(s);
    Cut(s[HEADER_SIZE..], |f.metadata|, |f.payload|);
    assert s == s[..HEADER_SIZE] + s[HEADER_SIZE..];
    assert s[..HEADER_SIZE] + (f.metadata + f.payload + rest) == s[..HEADER_SIZE] + f.metadata + f.payload + rest;
  }

  lemma Cut(body: seq<Byte>, m: nat, n: nat)
    requires m + n <= |body|
    ensures body == body[..m] + body[m..m + n] + body[m + n..]
  {
  }

  // ---------------------------------------------------------------- whole streams

  predicate AllFit(frames: seq<Frame>) {
    forall k :: 0 <= k < |frames| ==> FitsHeader(frames[k])
  }

  predicate AllWithinCaps(frames: seq<Frame>)
    ensures AllWithinCaps(frames) ==> AllFit(frames)
  {
    forall k :: 0 <= k < |frames| ==> WithinCaps(frames[k])
  }

  function EncodedAll(frames: seq<Frame>): seq<Byte>
    requires AllFit(frames)
  {
    if frames == [] then [] else Encoded(frames[0]) + EncodedAll(frames[1..])
  }

  /** Reading until the first error: the frames, the bytes that were not read as frames, and the error. */
  function ReadAll(s: seq<Byte>): (r: (seq<Frame>, seq<Byte>, Error))
    decreases |s|
  {
    var parsed := Parsed(s);
    if parsed.Err? then ([], s, parsed.error)
    else
      var (f, rest) := parsed.value;
      var (frames, left, error) := ReadAll(rest);
      ([f] + frames, left, error)
  }

  lemma EncodedCons(f: Frame, frames: seq<Frame>)
    requires FitsHeader(f) && AllFit(frames)
    ensures AllFit([f] + frames) && EncodedAll([f] + frames) == Encoded(f) + EncodedAll(frames)
  {
    assert ([f] + frames)[1..] == frames;
  }

  lemma ReadCons(f: Frame, tail: seq<Byte>)
    requires WithinCaps(f)
    ensures var r := ReadAll(tail); ReadAll(Encoded(f) + tail) == ([f] + r.0, r.1, r.2)
  {
    WrittenFrameReads(f, tail);
  }

  /** Whatever the bytes, the frames read are the frames that the bytes before the error encode: the
      reader is never out of step. */
  lemma {:induction false} NeverMisaligned(s: seq<Byte>)
    ensures AllWithinCaps(ReadAll(s).0)
    ensures s == EncodedAll(ReadAll(s).0) + ReadAll(s).1
    ensures Parsed(ReadAll(s).1) == Err(ReadAll(s).2)
    decreases |s|
  {
    if Parsed(s).Ok? {
      var f, rest := Parsed(s).value.0, Parsed(s).value.1;
      ReadFrameWasWritten(s);
      NeverMisaligned(rest);
      JoinStep(s, f, rest, ReadAll(rest).0, ReadAll(rest).1);
    } else {
      assert EncodedAll([]) + s == s;
    }
  }

  lemma JoinStep(s: seq<Byte>, f: Frame, rest: seq<Byte>, frames: seq<Frame>, left: seq<Byte>)
    requires WithinCaps(f) && AllWithinCaps(frames)
    requires s == Encoded(f) + rest && rest == EncodedAll(frames) + left
    ensures AllWithinCaps([f] + frames) && s == EncodedAll([f] + frames) + left
  {
    EncodedCons(f, frames);
    assert Encoded(f) + (EncodedAll(frames) + left) == Encoded(f) + EncodedAll(frames) + left;
  }

  /** A cut inside a frame within the caps runs into the end of the stream, never into a wrong length. */
  lemma CutFrame(f: Frame, cut: nat)
    requires WithinCaps(f) && cut < |Encoded(f)|
    ensures Parsed(Encoded(f)[..cut]) == Err(UnexpectedEof)
  {
    var s := Encoded(f)[..cut];
    if cut >= HEADER_SIZE {
      HeaderParts(f, []);
      assert (Encoded(f) + [])[1..5] == s[1..5] && (Encoded(f) + [])[5..9] == s[5..9];
    }
  }

  /** Cut at `cut`, the stream of these frames holds the first `whole` of them, and reading yields those and
      then the end of the stream. */
  ghost predicate YieldsWhole(frames: seq<Frame>, cut: nat, whole: nat)
    requires AllWithinCaps(frames) && cut <= |EncodedAll(frames)|
  {
    && whole <= |frames|
    && |EncodedAll(frames[..whole])| <= cut
    && (whole < |frames| ==> cut < |EncodedAll(frames[..whole])| + |Encoded(frames[whole])|)
    && ReadAll(EncodedAll(frames)[..cut]).0 == frames[..whole]
    && ReadAll(EncodedAll(frames)[..cut]).2 == UnexpectedEof
  }

  lemma YieldsOneMore(f: Frame, rest: seq<Frame>, cut: nat, whole: nat)
    requires WithinCaps(f) && AllWithinCaps(rest) && cut <= |EncodedAll(rest)| && YieldsWhole(rest, cut, whole)
    ensures AllWithinCaps([f] + rest) && |Encoded(f)| + cut <= |EncodedAll([f] + rest)|
    ensures YieldsWhole([f] + rest, |Encoded(f)| + cut, whole + 1)
  {
    var frames, tail := [f] + rest, EncodedAll(rest)[..cut];
    EncodedCons(f, rest);
    EncodedCons(f, rest[..whole]);
    assert frames[..whole + 1] == [f] + rest[..whole];
    assert EncodedAll(frames)[..|Encoded(f)| + cut] == Encoded(f) + tail;
    ReadCons(f, tail);
  }

  lemma YieldsNone(f: Frame, rest: seq<Frame>, cut: nat)
    requires WithinCaps(f) && AllWithinCaps(rest) && cut < |Encoded(f)|
    ensures AllWithinCaps([f] + rest) && cut <= |EncodedAll([f] + rest)| && YieldsWhole([f] + rest, cut, 0)
  {
    EncodedCons(f, rest);
    assert EncodedAll([f] + rest)[..cut] == Encoded(f)[..cut];
    CutFrame(f, cut);
    assert ([f] + rest)[..0] == [];
  }

  /** Reading any cut of a stream of frames yields exactly the frames the cut contains whole, and then the
      end of the stream. */
  lemma {:induction false} CutStream(frames: seq<Frame>, cut: nat) returns (whole: nat)
    requires AllWithinCaps(frames) && cut <= |EncodedAll(frames)|
    ensures YieldsWhole(frames, cut, whole)
    decreases |frames|
  {
    if frames == [] {
      whole := 0;
    } else {
      var f, rest := frames[0], frames[1..];
      EncodedCons(f, rest);
      assert frames == [f] + rest;
      if cut < |Encoded(f)| {
        whole := 0;
        YieldsNone(f, rest, cut);
      } else {
        var shorter := CutStream(rest, cut - |Encoded(f)|);
        YieldsOneMore(f, rest, cut - |Encoded(f)|, shorter);
        whole := shorter + 1;
      }
    }
  }

  /** Uncut, it yields all of them. */
  lemma {:induction false} WholeStream(frames: seq<Frame>)
    requires AllWithinCaps(frames)
    ensures ReadAll(EncodedAll(frames)) == (frames, [], UnexpectedEof)
  {
    if frames != [] {
      var f, rest := frames[0], frames[1..];
      assert frames == [f] + rest;
      assert AllWithinCaps(rest);
      WholeStream(rest);
      EncodedCons(f, rest);
      ReadCons(f, EncodedAll(rest));
    }
  }
}
