/** core/protocol/frame.py: length-prefixed frames on a byte stream, with the
  * top bit of the length telling binary frames from JSON ones. */
module Frames {
  import opened Wrappers
  import opened Bytes

  const MaxMessageSize := 100 * 1024 * 1024
  const BinaryFlag := 0x8000_0000

  datatype Kind = Json | Binary
  datatype Frame = Frame(kind: Kind, payload: Bytes)

  datatype FrameError = TooLarge | InvalidLength | IncompleteRead | BadPayload

  const FileDataHeader := 28

  /** The flag is the top bit of a 32-bit word, so setting it on a length is
    * an addition and testing and clearing it a comparison and a subtraction. */
  function Header(kind: Kind, length: nat): Bytes
    requires length <= MaxMessageSize
  {
    ToBytes(if kind.Binary? then length + BinaryFlag else length, 4)
  }

  function EncodeFrame(f: Frame): Result<Bytes, FrameError> {
    if |f.payload| > MaxMessageSize then Err(TooLarge) else Ok(Header(f.kind, |f.payload|) + f.payload)
  }

  // ---- Reading ------------------------------------------------------------------------

  datatype ReadResult = ReadOk(frame: Frame, rest: Bytes) | ReadErr(error: FrameError, rest: Bytes)

  /** An incomplete read uses up the stream; a bad length only its header. */
  function ReadOne(stream: Bytes): ReadResult {
    if |stream| < 4 then ReadErr(IncompleteRead, []) else
    var raw := FromBytes(stream[..4]);
    var kind := if raw >= BinaryFlag then Binary else Json;
    var length := if raw >= BinaryFlag then raw - BinaryFlag else raw;
    if length == 0 || length > MaxMessageSize then ReadErr(InvalidLength, stream[4..])
    else if |stream| < 4 + length then ReadErr(IncompleteRead, [])
    else ReadOk(Frame(kind, stream[4..4 + length]), stream[4 + length..])
  }

  /** Everything a read loop gets from a stream, and why it stops. */
  function ReadAll(stream: Bytes): (seq<Frame>, FrameError)
    decreases |stream|
  {
    match ReadOne(stream)
    case ReadErr(e, _) => ([], e)
    case ReadOk(f, rest) => var (fs, e) := ReadAll(rest); ([f] + fs, e)
  }

  class StreamReader {
    var data: Bytes

    constructor (stream: Bytes)
      ensures data == stream
    {
      data := stream;
    }

    method ReadExactly(n: nat) returns (r: Result<Bytes, FrameError>)
      modifies this
      ensures if n <= |old(data)| then r == Ok(old(data)[..n]) && data == old(data)[n..]
              else r == Err(IncompleteRead) && data == []
    {
      if n > |data| {
        data := [];
        return Err(IncompleteRead);
      }
      r := Ok(data[..n]);
      data := data[n..];
    }

    method ReadRaw() returns (r: Result<Frame, FrameError>)
      modifies this
      ensures match ReadOne(old(data))
              case ReadOk(f, rest) => r == Ok(f) && data == rest
              case ReadErr(e, rest) => r == Err(e) && data == rest
    {
      var header := ReadExactly(4);
      if header.Err? {
        return Err(header.error);
      }
      var raw := FromBytes(header.value);
      var isBinary := raw >= BinaryFlag;
      var length := if isBinary then raw - BinaryFlag else raw;
      if length == 0 || length > MaxMessageSize {
        return Err(InvalidLength);
      }
      var payload := ReadExactly(length);
      if payload.Err? {
        return Err(payload.error);
      }
      assert old(data)[4..][..length] == old(data)[4..4 + length];
      assert old(data)[4..][length..] == old(data)[4 + length..];
      return Ok(Frame(if isBinary then Binary else Json, payload.value));
    }

    /** The read loop of a connection: valid tells which JSON payloads parse and
      * pass the schema. Anything else, and a binary payload too short for a
      * file_data header, ends it. */
    method ReadLoop(valid: Bytes -> bool) returns (frames: seq<Frame>, stop: FrameError)
      modifies this
      ensures frames == LoopReads(valid, old(data)).0 && stop == LoopReads(valid, old(data)).1
    {
      frames := [];
      while true
        invariant LoopReads(valid, old(data)).0 == frames + LoopReads(valid, data).0
        invariant LoopReads(valid, old(data)).1 == LoopReads(valid, data).1
        decreases |data|
      {
        var r := ReadRaw();
        if r.Err? {
          return frames, r.error;
        }
        if !Handled(valid, r.value) {
          return frames, BadPayload;
        }
        frames := frames + [r.value];
      }
    }
  }

  predicate Handled(valid: Bytes -> bool, f: Frame) {
    if f.kind.Json? then valid(f.payload) else |f.payload| >= FileDataHeader
  }

  function LoopReads(valid: Bytes -> bool, stream: Bytes): (seq<Frame>, FrameError)
    decreases |stream|
  {
    match ReadOne(stream)
    case ReadErr(e, _) => ([], e)
    case ReadOk(f, rest) =>
      if !Handled(valid, f) then ([], BadPayload)
      else var (fs, e) := LoopReads(valid, rest); ([f] + fs, e)
  }

  /** The loop hands on the frames of the stream up to the first that is not
    * handled, and stops there, or where the stream itself stops. */
  lemma {:induction false} LoopReadsExactly(valid: Bytes -> bool, stream: Bytes)
    ensures var fs, all := LoopReads(valid, stream).0, ReadAll(stream).0;
            && fs <= all && (forall i :: 0 <= i < |fs| ==> Handled(valid, fs[i]))
            && (if |fs| < |all| then !Handled(valid, all[|fs|]) && LoopReads(valid, stream).1 == BadPayload
                else LoopReads(valid, stream).1 == ReadAll(stream).1)
    decreases |stream|
  {
    if ReadOne(stream).ReadOk? && Handled(valid, ReadOne(stream).frame) {
      LoopReadsExactly(valid, ReadOne(stream).rest);
    }
  }

  // ---- Unique decodability ----------------------------------------------------------------

  predicate Sendable(f: Frame) { 1 <= |f.payload| <= MaxMessageSize }

  predicate AllSendable(fs: seq<Frame>) { forall i :: 0 <= i < |fs| ==> Sendable(fs[i]) }

  function Encoded(f: Frame): (b: Bytes)
    requires |f.payload| <= MaxMessageSize
    ensures |b| == 4 + |f.payload|
  {
    EncodeFrame(f).value
  }

  function Stream(fs: seq<Frame>): Bytes
    requires AllSendable(fs)
  {
    if fs == [] then [] else Encoded(fs[0]) + Stream(fs[1..])
  }

  /** A frame that encodes is read back, with whatever follows left over,
    * exactly when its payload is not empty. */
  lemma ReadEncoded(f: Frame, rest: Bytes)
    requires |f.payload| <= MaxMessageSize
    ensures ReadOne(Encoded(f) + rest) == (if f.payload == [] then ReadErr(InvalidLength, rest) else ReadOk(f, rest))
  {
    var s, h := Encoded(f) + rest, Header(f.kind, |f.payload|);
    Cut(h, f.payload, rest);
    HeaderReads(f.kind, |f.payload|);
    assert s == h + f.payload + rest;
  }

  lemma Cut(h: Bytes, payload: Bytes, rest: Bytes)
    ensures var s := h + payload + rest;
            s[..|h|] == h && s[|h|..|h| + |payload|] == payload && s[|h| + |payload|..] == rest
  {}

  lemma HeaderReads(kind: Kind, n: nat)
    requires n <= MaxMessageSize
    ensures |Header(kind, n)| == 4
    ensures FromBytes(Header(kind, n)) == if kind.Binary? then n + BinaryFlag else n
  {}

  /** Conversely, a frame that is read was encoded at the front of the stream. */
  lemma ReadIsEncoded(stream: Bytes)
    requires ReadOne(stream).ReadOk?
    ensures Sendable(ReadOne(stream).frame)
    ensures Encoded(ReadOne(stream).frame) + ReadOne(stream).rest == stream
  {
    var ReadOk(f, rest) := ReadOne(stream);
    var n := |f.payload|;
    ToFromBytes(stream[..4]);
    assert Header(f.kind, n) == stream[..4];
    assert stream == stream[..4] + (stream[4..4 + n] + stream[4 + n..]);
  }

  /** A header is refused for its length exactly when no frame of one byte to one
    * hundred mebibytes begins with it, and then nothing behind it is used up. */
  lemma BadLengthExactly(stream: Bytes)
    requires |stream| >= 4
    ensures ReadOne(stream) == ReadErr(InvalidLength, stream[4..])
       <==> forall f: Frame :: 1 <= |f.payload| <= 104857600 ==> Encoded(f)[..4] != stream[..4]
  {
    var raw := FromBytes(stream[..4]);
    var kind := if raw >= BinaryFlag then Binary else Json;
    var length := if raw >= BinaryFlag then raw - BinaryFlag else raw;
    ToFromBytes(stream[..4]);
    if 1 <= length <= MaxMessageSize {
      var f := Frame(kind, seq(length, _ => 0));
      assert Encoded(f)[..4] == Header(kind, length) == stream[..4];
      assert ReadOne(stream) != ReadErr(InvalidLength, stream[4..]);
    } else {
      forall f: Frame | 1 <= |f.payload| <= 104857600 ensures Encoded(f)[..4] != stream[..4] {
        assert Encoded(f)[..4] == Header(f.kind, |f.payload|);
        assert FromBytes(Header(f.kind, |f.payload|)) != raw;
      }
    }
  }

  /** A frame cut short yields nothing. */
  lemma ReadTruncated(f: Frame, k: nat)
    requires Sendable(f) && k < |Encoded(f)|
    ensures ReadOne(Encoded(f)[..k]) == ReadErr(IncompleteRead, [])
  {
    if k >= 4 {
      assert Encoded(f)[..k][..4] == Header(f.kind, |f.payload|);
    }
  }

  lemma ReadAllStep(f: Frame, tail: Bytes)
    requires Sendable(f)
    ensures ReadAll(Encoded(f) + tail).0 == [f] + ReadAll(tail).0
    ensures ReadAll(Encoded(f) + tail).1 == ReadAll(tail).1
  {
    ReadEncoded(f, tail);
  }

  lemma StreamStep(f: Frame, fs: seq<Frame>, rest: Bytes)
    requires Sendable(f) && AllSendable(fs)
    ensures Stream([f] + fs) + rest == Encoded(f) + (Stream(fs) + rest)
  {}

  lemma ReadAllCons(f: Frame, fs: seq<Frame>, rest: Bytes)
    requires Sendable(f) && AllSendable(fs)
    requires ReadAll(Stream(fs) + rest).0 == fs + ReadAll(rest).0
    ensures ReadAll(Stream([f] + fs) + rest).0 == [f] + fs + ReadAll(rest).0
    ensures ReadAll(Stream([f] + fs) + rest).1 == ReadAll(Stream(fs) + rest).1
  {
    StreamStep(f, fs, rest);
    ReadAllStep(f, Stream(fs) + rest);
    var tail := ReadAll(rest).0;
    assert [f] + (fs + tail) == [f] + fs + tail;
  }

  lemma {:induction false} ReadAllPrefix(fs: seq<Frame>, rest: Bytes)
    requires AllSendable(fs)
    ensures ReadAll(Stream(fs) + rest).0 == fs + ReadAll(rest).0
    ensures ReadAll(Stream(fs) + rest).1 == ReadAll(rest).1
  {
    if fs == [] {
      assert Stream(fs) + rest == rest;
    } else {
      ReadAllPrefix(fs[1..], rest);
      ReadAllCons(fs[0], fs[1..], rest);
      assert fs == [fs[0]] + fs[1..];
    }
  }

  lemma {:induction false} StreamConcat(a: seq<Frame>, b: seq<Frame>)
    requires AllSendable(a) && AllSendable(b)
    ensures Stream(a + b) == Stream(a) + Stream(b)
  {
    if a == [] {
      assert a + b == b;
    } else {
      assert (a + b)[1..] == a[1..] + b;
      StreamConcat(a[1..], b);
    }
  }

  /** How many frames end at or before byte k. */
  lemma CompleteFrames(fs: seq<Frame>, k: nat) returns (n: nat)
    requires AllSendable(fs)
    ensures n <= |fs| && |Stream(fs[..n])| <= k
    ensures n < |fs| ==> k < |Stream(fs[..n + 1])|
  {
    n := 0;
    while n < |fs| && |Stream(fs[..n + 1])| <= k
      invariant n <= |fs| && |Stream(fs[..n])| <= k
    {
      n := n + 1;
    }
  }

  lemma CutBehind(fs: seq<Frame>, k: nat, n: nat)
    requires AllSendable(fs) && n <= |fs| && |Stream(fs[..n])| <= k <= |Stream(fs)|
    ensures k - |Stream(fs[..n])| <= |Stream(fs[n..])|
    ensures Stream(fs)[..k] == Stream(fs[..n]) + Stream(fs[n..])[..k - |Stream(fs[..n])|]
  {
    assert fs == fs[..n] + fs[n..];
    StreamConcat(fs[..n], fs[n..]);
  }

  lemma CutFrame(fs: seq<Frame>, k: nat, n: nat)
    requires AllSendable(fs) && n < |fs| && |Stream(fs[..n])| <= k < |Stream(fs[..n + 1])|
    ensures k - |Stream(fs[..n])| <= |Stream(fs[n..])|
    ensures ReadOne(Stream(fs[n..])[..k - |Stream(fs[..n])|]) == ReadErr(IncompleteRead, [])
  {
    assert fs[..n + 1] == fs[..n] + [fs[n]];
    StreamConcat(fs[..n], [fs[n]]);
    StreamOfOne(fs[n]);
    assert fs[n..] == [fs[n]] + fs[n + 1..];
    CutInFirst(fs[n], fs[n + 1..], k - |Stream(fs[..n])|);
  }

  lemma TruncatedAt(fs: seq<Frame>, k: nat, n: nat)
    requires AllSendable(fs) && k <= |Stream(fs)|
    requires n <= |fs| && |Stream(fs[..n])| <= k && (n < |fs| ==> k < |Stream(fs[..n + 1])|)
    ensures ReadAll(Stream(fs)[..k]).0 == fs[..n]
    ensures ReadAll(Stream(fs)[..k]).1 == IncompleteRead
  {
    CutBehind(fs, k, n);
    var left := Stream(fs[n..])[..k - |Stream(fs[..n])|];
    if n < |fs| { CutFrame(fs, k, n); } else { assert left == []; }
    ReadAllPrefix(fs[..n], left);
  }

  /** Cut anywhere, a stream of frames gives exactly its complete frames. */
  lemma TruncatedStream(fs: seq<Frame>, k: nat) returns (n: nat)
    requires AllSendable(fs) && k <= |Stream(fs)|
    ensures n <= |fs| && |Stream(fs[..n])| <= k && (n < |fs| ==> k < |Stream(fs[..n + 1])|)
    ensures ReadAll(Stream(fs)[..k]).0 == fs[..n] && ReadAll(Stream(fs)[..k]).1 == IncompleteRead
  {
    n := CompleteFrames(fs, k);
    TruncatedAt(fs, k, n);
  }

  lemma CutInFirst(f: Frame, fs: seq<Frame>, k: nat)
    requires Sendable(f) && AllSendable(fs) && k < |Encoded(f)|
    ensures k <= |Stream([f] + fs)| && ReadOne(Stream([f] + fs)[..k]) == ReadErr(IncompleteRead, [])
  {
    StreamStep(f, fs, []);
    assert Stream(fs) + [] == Stream(fs) && Stream([f] + fs) + [] == Stream([f] + fs);
    assert Stream([f] + fs)[..k] == Encoded(f)[..k];
    ReadTruncated(f, k);
  }

  lemma StreamOfOne(f: Frame)
    requires Sendable(f)
    ensures Stream([f]) == Encoded(f)
  {}

  /** Whatever arrives, the frames a loop returns are an encoded prefix of it. */
  lemma {:induction false} ReadAllIsPrefix(stream: Bytes)
    ensures AllSendable(ReadAll(stream).0)
    ensures Stream(ReadAll(stream).0) <= stream
    decreases |stream|
  {
    if ReadOne(stream).ReadOk? {
      var ReadOk(f, rest) := ReadOne(stream);
      ReadIsEncoded(stream);
      ReadAllIsPrefix(rest);
      var fs := ReadAll(rest).0;
      assert ([f] + fs)[1..] == fs;
      assert Stream([f] + fs) == Encoded(f) + Stream(fs);
    }
  }

  /** No byte string is two different lists of frames. */
  lemma StreamInjective(fs: seq<Frame>, gs: seq<Frame>)
    requires AllSendable(fs) && AllSendable(gs) && Stream(fs) == Stream(gs)
    ensures fs == gs
  {
    ReadAllPrefix(fs, []);
    ReadAllPrefix(gs, []);
    assert Stream(fs) + [] == Stream(fs);
    assert Stream(gs) + [] == Stream(gs);
    assert ReadAll([]).0 == [];
    assert fs + [] == fs && gs + [] == gs;
  }
}

/** core/protocol/binary.py: the 28-byte header of a file_data payload. */
module FileData {
  import Frames
  import opened Wrappers
  import opened Positional
  import opened Bytes

  type TransferId = b: Bytes | |b| == 16 witness [0, 0, 0, 0, 0, 0, 0, 0, 0, 0, 0, 0, 0, 0, 0, 0]

  datatype Chunk = Chunk(transferId: TransferId, sequence: int, offset: int, data: Bytes)

  datatype ProtocolError = SequenceOutOfRange | OffsetOutOfRange | TooShort

  function EncodeFileData(c: Chunk): Result<Bytes, ProtocolError> {
    if !(0 <= c.sequence < Pow(256, 4)) then Err(SequenceOutOfRange)
    else if !(0 <= c.offset < Pow(256, 8)) then Err(OffsetOutOfRange)
    else Ok(c.transferId + ToBytes(c.sequence, 4) + ToBytes(c.offset, 8) + c.data)
  }

  function DecodeFileData(payload: Bytes): Result<Chunk, ProtocolError> {
    if |payload| < 28 then Err(TooShort)
    else Ok(Chunk(payload[..16], FromBytes(payload[16..20]), FromBytes(payload[20..28]), payload[28..]))
  }

  /** Chunks whose numbers fit and payloads of at least 28 bytes correspond
    * one to one. */
  lemma FileDataRoundTrip(c: Chunk)
    requires EncodeFileData(c).Ok?
    ensures DecodeFileData(EncodeFileData(c).value) == Ok(c)
  {
    var p := EncodeFileData(c).value;
    var s, o := ToBytes(c.sequence, 4), ToBytes(c.offset, 8);
    assert p == c.transferId + (s + (o + c.data));
    assert p[..16] == c.transferId && p[16..20] == s && p[20..28] == o && p[28..] == c.data;
  }

  /** Which chunks encode: a number of four bytes and a place of eight, the number
    * looked at first; and which payloads decode. */
  lemma FileDataExactly(c: Chunk, payload: Bytes)
    ensures EncodeFileData(c).Ok? <==> 0 <= c.sequence <= 4294967295 && 0 <= c.offset <= 18446744073709551615
    ensures EncodeFileData(c) == Err(SequenceOutOfRange) <==> !(0 <= c.sequence <= 4294967295)
    ensures DecodeFileData(payload) == Err(TooShort) <==> |payload| < 28
  {
    assert Pow(256, 4) == 4294967296;
    PowAdd(256, 4, 4);
  }

  /** The read loop of a connection hands on the JSON frames that are valid and the
    * binary ones that hold a chunk. */
  lemma HandledExactly(valid: Bytes -> bool, f: Frames.Frame)
    ensures Frames.Handled(valid, f) <==> if f.kind.Json? then valid(f.payload) else DecodeFileData(f.payload).Ok?
  {}

  lemma FileDataOnto(payload: Bytes)
    requires DecodeFileData(payload).Ok?
    ensures EncodeFileData(DecodeFileData(payload).value) == Ok(payload)
  {
    ToFromBytes(payload[16..20]);
    ToFromBytes(payload[20..28]);
    assert payload == payload[..16] + payload[16..20] + payload[20..28] + payload[28..];
  }
}
