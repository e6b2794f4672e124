/** The frame protocol guests use to push their logs to the agent, and the
    handler of one guest connection. */
module Vsock {
  import opened Types

  const MAX_FRAME_PAYLOAD := 1024 * 1024
  const U32_MAX := 0xFFFF_FFFF
  const HEADER_SIZE := 5

  datatype LogStream = Handshake | Stdout | Stderr | Complete {
    function Selector(): Byte {
      match this
      case Handshake => 0
      case Stdout => 1
      case Stderr => 2
      case Complete => 3
    }
  }

  function FromSelector(b: Byte): Option<LogStream> {
    if b == 0 then Some(Handshake)
    else if b == 1 then Some(Stdout)
    else if b == 2 then Some(Stderr)
    else if b == 3 then Some(Complete)
    else None
  }

  datatype FrameError = TruncatedHeader | BadLength | BadSelector | TruncatedFrame

  datatype LogFrame = LogFrame(stream: LogStream, payload: seq<Byte>) {
    predicate Fits() {
      |payload| <= MAX_FRAME_PAYLOAD
    }

    /** Length of the rest in four bytes, saturating; stream; payload. */
    function Encode(): seq<Byte> {
      BigEndian(if |payload| + 1 > U32_MAX then U32_MAX else |payload| + 1) + [stream.Selector()] + payload
    }
  }

  function BigEndian(n: nat): (r: seq<Byte>)
    requires n <= U32_MAX
    ensures |r| == 4
  {
    [n / 256 / 256 / 256, n / 256 / 256 % 256, n / 256 % 256, n % 256]
  }

  function FromBigEndian(b: seq<Byte>): nat
    requires |b| == 4
  {
    ((b[0] as int * 256 + b[1]) * 256 + b[2]) * 256 + b[3]
  }

  lemma BigEndianRoundTrip(n: nat)
    requires n <= U32_MAX
    ensures FromBigEndian(BigEndian(n)) == n
  {
  }

  lemma BigEndianCanonical(b: seq<Byte>)
    requires |b| == 4
    ensures FromBigEndian(b) <= U32_MAX && BigEndian(FromBigEndian(b)) == b
  {
    var n := FromBigEndian(b);
    assert n / 256 == (b[0] as int * 256 + b[1]) * 256 + b[2];
    assert n / 256 / 256 == b[0] as int * 256 + b[1];
  }

  /** What a stream of bytes decodes to next, and the bytes left over. */
  function DecodeOne(bytes: seq<Byte>): (r: (Result<Option<LogFrame>, FrameError>, seq<Byte>))
    ensures r.0.Ok? && r.0.value.Some? ==> |r.1| < |bytes|
  {
    if bytes == [] then (Ok(None), [])
    else if |bytes| < HEADER_SIZE then (Err(TruncatedHeader), [])
    else
      var len := FromBigEndian(bytes[..4]);
      if len == 0 || len > MAX_FRAME_PAYLOAD + 1 then (Err(BadLength), bytes[HEADER_SIZE..]) else
        match FromSelector(bytes[4])
        case None => (Err(BadSelector), bytes[HEADER_SIZE..])
        case Some(stream) =>
          if |bytes| - HEADER_SIZE < len - 1 then (Err(TruncatedFrame), [])
          else (Ok(Some(LogFrame(stream, bytes[HEADER_SIZE..4 + len]))), bytes[4 + len..])
  }

  /** The frames of a stream up to its end or its first error. */
  function DecodeStream(bytes: seq<Byte>): (seq<LogFrame>, Option<FrameError>)
    decreases |bytes|
  {
    match DecodeOne(bytes)
    case (Ok(None), _) => ([], None)
    case (Err(e), _) => ([], Some(e))
    case (Ok(Some(frame)), rest) =>
      var (frames, end) := DecodeStream(rest);
      ([frame] + frames, end)
  }

  function EncodeAll(frames: seq<LogFrame>): seq<Byte> {
    if frames == [] then [] else frames[0].Encode() + EncodeAll(frames[1..])
  }

  // ---------------------------------------------------------------------
  // The bytes on the wire
  // ---------------------------------------------------------------------

  /** The number in the first four bytes, the most significant byte first. */
  function LengthField(bytes: seq<Byte>): int
    requires |bytes| >= 4
  {
    bytes[0] as int * 0x100_0000 + bytes[1] as int * 0x1_0000 + bytes[2] as int * 0x100 + bytes[3] as int
  }

  /** A frame of up to 1 MiB is four bytes that count the rest, one byte for the stream,
      and the payload. */
  lemma WireFormat(frame: LogFrame)
    ensures frame.Fits() <==> |frame.payload| <= 1_048_576
    ensures var bytes := frame.Encode();
            && |bytes| == 5 + |frame.payload| && bytes[5..] == frame.payload
            && (frame.Fits() ==> LengthField(bytes) == 1 + |frame.payload|)
            && (match bytes[4]
                case 0 => frame.stream == Handshake
                case 1 => frame.stream == Stdout
                case 2 => frame.stream == Stderr
                case 3 => frame.stream == Complete
                case _ => false)
  {
    var len := if |frame.payload| + 1 > U32_MAX then U32_MAX else |frame.payload| + 1;
    assert frame.Encode()[..4] == BigEndian(len);
    BigEndianRoundTrip(len);
  }

  /** What is refused, and why: less than a header, a length of zero or of more than the
      stream byte and 1 MiB, an unknown stream, less than the length announces. */
  lemma RefusedFor(bytes: seq<Byte>, e: FrameError)
    ensures DecodeOne(bytes).0 == Err(e) <==>
              if |bytes| < 5 then bytes != [] && e == TruncatedHeader
              else if LengthField(bytes) == 0 || LengthField(bytes) > 1_048_577 then e == BadLength
              else if bytes[4] > 3 then e == BadSelector
              else |bytes| < 4 + LengthField(bytes) && e == TruncatedFrame
  {
    if |bytes| >= 5 {
      assert FromBigEndian(bytes[..4]) == LengthField(bytes);
    }
  }

  // ---------------------------------------------------------------------
  // Round trips
  // ---------------------------------------------------------------------

  /** A frame survives the wire exactly when its payload is at most 1 MiB; a
      larger one is refused, whatever follows it. */
  lemma FrameRoundTripIff(frame: LogFrame, rest: seq<Byte>)
    ensures DecodeOne(frame.Encode() + rest) == (Ok(Some(frame)), rest) <==> frame.Fits()
    ensures !frame.Fits() ==> DecodeOne(frame.Encode() + rest).0 == Err(BadLength)
  {
    var bytes := frame.Encode() + rest;
    var len := if |frame.payload| + 1 > U32_MAX then U32_MAX else |frame.payload| + 1;
    assert bytes[..4] == BigEndian(len);
    BigEndianRoundTrip(len);
    assert bytes[4] == frame.stream.Selector();
    if frame.Fits() {
      assert bytes[HEADER_SIZE..4 + len] == frame.payload;
      assert bytes[4 + len..] == rest;
    }
  }

  /** Nothing but its own encoding decodes to a frame. */
  lemma DecodedIsEncoded(bytes: seq<Byte>)
    ensures match DecodeOne(bytes)
            case (Ok(Some(frame)), rest) => frame.Fits() && bytes == frame.Encode() + rest
            case (Ok(None), _) => bytes == []
            case (Err(_), _) => true
  {
    if |bytes| >= HEADER_SIZE {
      BigEndianCanonical(bytes[..4]);
      var len := FromBigEndian(bytes[..4]);
      if 0 < len <= MAX_FRAME_PAYLOAD + 1 && FromSelector(bytes[4]).Some? && |bytes| - HEADER_SIZE >= len - 1 {
        assert bytes == bytes[..4] + [bytes[4]] + bytes[HEADER_SIZE..4 + len] + bytes[4 + len..];
      }
    }
  }

  /** Frames of at most 1 MiB, back to back, decode to themselves followed by a
      clean end. */
  lemma {:induction false} StreamRoundTrip(frames: seq<LogFrame>)
    requires forall i | 0 <= i < |frames| :: frames[i].Fits()
    ensures DecodeStream(EncodeAll(frames)) == (frames, None)
  {
    hide DecodeOne, LogFrame.Encode;
    if frames == [] {
      DecodedIsEncoded([]);
      NothingDecodes();
    } else {
      FrameRoundTripIff(frames[0], EncodeAll(frames[1..]));
      EncodingSize(frames[0]);
      StreamRoundTrip(frames[1..]);
      assert frames == [frames[0]] + frames[1..];
    }
  }

  lemma NothingDecodes()
    ensures DecodeOne([]) == (Ok(None), [])
  {
  }

  lemma EncodingSize(frame: LogFrame)
    ensures |frame.Encode()| == HEADER_SIZE + |frame.payload|
  {
  }

  /** A stream that ends cleanly is the encoding of its frames, so no two
      sequences of frames share an encoding and no byte is skipped. */
  lemma {:induction false} CleanStreamIsEncoded(bytes: seq<Byte>)
    requires DecodeStream(bytes).1.None?
    ensures EncodeAll(DecodeStream(bytes).0) == bytes
    decreases |bytes|
  {
    hide DecodeOne, LogFrame.Encode;
    DecodedIsEncoded(bytes);
    var (r, rest) := DecodeOne(bytes);
    if r.Ok? && r.value.Some? {
      EncodingSize(r.value.value);
      CleanStreamIsEncoded(rest);
      assert ([r.value.value] + DecodeStream(rest).0)[1..] == DecodeStream(rest).0;
    }
  }

  /** The number of frames that lie completely within the first `cut` bytes. */
  function WholeFrames(frames: seq<LogFrame>, cut: nat): (k: nat)
    ensures k <= |frames|
  {
    if frames == [] || cut < |frames[0].Encode()| then 0
    else 1 + WholeFrames(frames[1..], cut - |frames[0].Encode()|)
  }

  lemma CutInsideFrame(frame: LogFrame, rest: seq<Byte>, cut: nat)
    requires frame.Fits() && cut < |frame.Encode()|
    ensures DecodeOne((frame.Encode() + rest)[..cut]).0 ==
            if cut == 0 then Ok(None) else Err(if cut < HEADER_SIZE then TruncatedHeader else TruncatedFrame)
  {
    var bytes := (frame.Encode() + rest)[..cut];
    if cut >= HEADER_SIZE {
      assert bytes[..4] == BigEndian(|frame.payload| + 1);
      BigEndianRoundTrip(|frame.payload| + 1);
      assert bytes[4] == frame.stream.Selector();
    }
  }

  /** The first `cut` bytes of a stream decode to the frames that lie in them, and the
      end is clean exactly if the cut lies between two frames. */
  predicate CutsStream(frames: seq<LogFrame>, cut: nat)
    requires cut <= |EncodeAll(frames)|
  {
    var k := WholeFrames(frames, cut);
    var (got, end) := DecodeStream(EncodeAll(frames)[..cut]);
    && got == frames[..k]
    && |EncodeAll(frames[..k])| <= cut
    && (end.None? <==> cut == |EncodeAll(frames[..k])|)
    && (end.Some? ==>
          end.value == if cut - |EncodeAll(frames[..k])| < HEADER_SIZE then TruncatedHeader else TruncatedFrame)
  }

  lemma CutInsideFirst(frames: seq<LogFrame>, cut: nat)
    requires frames != [] && frames[0].Fits() && cut < |frames[0].Encode()|
    ensures cut <= |EncodeAll(frames)| && CutsStream(frames, cut)
  {
    hide DecodeOne, LogFrame.Encode;
    CutInsideFrame(frames[0], EncodeAll(frames[1..]), cut);
    assert frames[..0] == [];
  }

  lemma EncodeStep(frame: LogFrame, frames: seq<LogFrame>)
    ensures EncodeAll([frame] + frames) == frame.Encode() + EncodeAll(frames)
  {
    assert ([frame] + frames)[1..] == frames;
  }

  lemma DecodeAhead(frame: LogFrame, rest: seq<Byte>)
    requires frame.Fits()
    ensures DecodeStream(frame.Encode() + rest) == ([frame] + DecodeStream(rest).0, DecodeStream(rest).1)
  {
    hide DecodeOne, LogFrame.Encode;
    FrameRoundTripIff(frame, rest);
    EncodingSize(frame);
  }

  lemma WholeStep(frame: LogFrame, frames: seq<LogFrame>, cut: nat)
    requires cut >= |frame.Encode()|
    ensures WholeFrames([frame] + frames, cut) == 1 + WholeFrames(frames, cut - |frame.Encode()|)
  {
    assert ([frame] + frames)[1..] == frames;
  }

  lemma CutBeyondFirst(frame: LogFrame, frames: seq<LogFrame>, cut: nat)
    requires frame.Fits() && |frame.Encode()| <= cut <= |frame.Encode()| + |EncodeAll(frames)|
    requires CutsStream(frames, cut - |frame.Encode()|)
    ensures cut <= |EncodeAll([frame] + frames)| && CutsStream([frame] + frames, cut)
  {
    hide DecodeOne, LogFrame.Encode, EncodeAll, DecodeStream, WholeFrames;
    var first, rest := frame.Encode(), EncodeAll(frames);
    var k := WholeFrames(frames, cut - |first|);
    EncodeStep(frame, frames);
    EncodeStep(frame, frames[..k]);
    WholeStep(frame, frames, cut);
    DecodeAhead(frame, rest[..cut - |first|]);
    assert (first + rest)[..cut] == first + rest[..cut - |first|];
    assert ([frame] + frames)[..k + 1] == [frame] + frames[..k];
  }

  /** Whatever follows them, whole frames are delivered; then the first error ends the
      stream, and nothing after it is read. */
  lemma {:induction false} StreamStopsAtError(frames: seq<LogFrame>, rest: seq<Byte>)
    requires forall i | 0 <= i < |frames| :: frames[i].Fits()
    requires DecodeOne(rest).0.Err?
    ensures DecodeStream(EncodeAll(frames) + rest) == (frames, Some(DecodeOne(rest).0.error))
  {
    hide DecodeOne, LogFrame.Encode;
    if frames == [] {
      assert EncodeAll(frames) + rest == rest;
    } else {
      StreamStopsAtError(frames[1..], rest);
      DecodeAhead(frames[0], EncodeAll(frames[1..]) + rest);
      assert EncodeAll(frames) + rest == frames[0].Encode() + (EncodeAll(frames[1..]) + rest);
      assert frames == [frames[0]] + frames[1..];
    }
  }

  /** A connection lost after any number of bytes delivers the frames that were
      complete, and ends cleanly exactly if it was lost between two frames. */
  lemma {:induction false} StreamCut(frames: seq<LogFrame>, cut: nat)
    requires forall i | 0 <= i < |frames| :: frames[i].Fits()
    requires cut <= |EncodeAll(frames)|
    ensures CutsStream(frames, cut)
    decreases |frames|
  {
    hide DecodeOne, LogFrame.Encode;
    if frames == [] {
      NothingDecodes();
      assert EncodeAll(frames)[..cut] == [];
    } else if cut < |frames[0].Encode()| {
      CutInsideFirst(frames, cut);
    } else {
      StreamCut(frames[1..], cut - |frames[0].Encode()|);
      CutBeyondFirst(frames[0], frames[1..], cut);
      assert frames == [frames[0]] + frames[1..];
    }
  }

  // ---------------------------------------------------------------------
  // Reading under any chunking
  // ---------------------------------------------------------------------

  /** A byte stream. A read returns at least one byte unless the stream is at
      its end, and otherwise as many as the transport pleases. */
  class Reader {
    var rest: seq<Byte>

    constructor (bytes: seq<Byte>)
      ensures rest == bytes
    {
      rest := bytes;
    }

    method Read(buf: array<Byte>, from: nat) returns (n: nat)
      requires from < buf.Length
      modifies this, buf
      ensures n <= |old(rest)| && from + n <= buf.Length && (n == 0 <==> old(rest) == [])
      ensures rest == old(rest)[n..]
      ensures buf[..] == old(buf[..from]) + old(rest)[..n] + old(buf[from + n..])
    {
      if rest == [] {
        assert buf[..] == buf[..from] + buf[from..];
        return 0;
      }
      n :| 1 <= n <= |rest| && from + n <= buf.Length;
      forall i | 0 <= i < n {
        buf[from + i] := rest[i];
      }
      rest := rest[n..];
    }

    /** Read until `buf` is full; false if the stream ends before that. */
    method ReadExact(buf: array<Byte>) returns (full: bool)
      modifies this, buf
      ensures full == (|old(rest)| >= buf.Length)
      ensures full ==> buf[..] == old(rest)[..buf.Length] && rest == old(rest)[buf.Length..]
      ensures !full ==> rest == []
    {
      var filled := 0;
      while filled < buf.Length
        invariant filled <= buf.Length && filled <= |old(rest)|
        invariant rest == old(rest)[filled..]
        invariant buf[..filled] == old(rest)[..filled]
      {
        var n := Read(buf, filled);
        if n == 0 {
          return false;
        }
        filled := filled + n;
      }
      assert buf[..filled] == buf[..];
      return true;
    }
  }

  /** Fill `buf`, or report a clean end before its first byte. */
  method ReadFullOrEof(reader: Reader, buf: array<Byte>) returns (r: Result<bool, FrameError>)
    modifies reader, buf
    ensures var input := old(reader.rest);
            if |input| >= buf.Length then
              r == Ok(true) && buf[..] == input[..buf.Length] && reader.rest == input[buf.Length..]
            else
              reader.rest == [] && r == if input == [] then Ok(false) else Err(TruncatedHeader)
  {
    var filled := 0;
    while filled < buf.Length
      invariant filled <= buf.Length && filled <= |old(reader.rest)|
      invariant reader.rest == old(reader.rest)[filled..]
      invariant buf[..filled] == old(reader.rest)[..filled]
    {
      var n := reader.Read(buf, filled);
      if n == 0 {
        return if filled == 0 then Ok(false) else Err(TruncatedHeader);
      }
      filled := filled + n;
    }
    assert buf[..filled] == buf[..];
    return Ok(true);
  }

  /** Decode one frame. However the transport splits the bytes, the outcome and
      the bytes consumed are those of `DecodeOne`. */
  method Decode(reader: Reader) returns (r: Result<Option<LogFrame>, FrameError>)
    modifies reader
    ensures (r, reader.rest) == DecodeOne(old(reader.rest))
  {
    var header := new Byte[HEADER_SIZE];
    ghost var input := reader.rest;
    var started := ReadFullOrEof(reader, header);
    match started
    case Err(e) => return Err(e);
    case Ok(false) => return Ok(None);
    case Ok(true) =>
      assert header[..4] == input[..4];
      var len := FromBigEndian(header[..4]);
      if len == 0 || len > MAX_FRAME_PAYLOAD + 1 {
        return Err(BadLength);
      }
      var stream := FromSelector(header[4]);
      if stream.None? {
        return Err(BadSelector);
      }
      var payload := new Byte[len - 1];
      var full := reader.ReadExact(payload);
      if !full {
        return Err(TruncatedFrame);
      }
      assert input[HEADER_SIZE..][..len - 1] == input[HEADER_SIZE..4 + len];
      assert input[HEADER_SIZE..][len - 1..] == input[4 + len..];
      return Ok(Some(LogFrame(stream.value, payload[..])));
  }
}
