/** core/transport/secure.py: encrypted frames over a byte stream. */
module SecureTransports {
  import opened Wrappers
  import opened Positional
  import opened Bytes
  import opened Frames
  import opened Primitives
  import opened Kdf
  import opened SecureChannels

  const TypeJson: Byte := 74
  const TypeBinary: Byte := 66
  const SequenceSize := 8
  const MinEncryptedPayload := SequenceSize + 16

  /** What a caller gets from the transport. A JSON message stands for the
    * bytes json.dumps gives it. */
  datatype Received = JsonMessage(text: Bytes) | BinaryData(data: Bytes) | RawData(text: Bytes)

  datatype TransportError =
    | ConnectionClosed | BadFrame | PlainFrame | TooShort | Refused(cause: EncryptionError)
    | EmptyPayload | MalformedJson | SequenceTooWide | PayloadTooLarge

  datatype Transport = Transport(channel: Channel, closed: bool)

  // ---- Sending ---------------------------------------------------------------------------

  function WireFrame(c: Crypto, key: Bytes, sequence: nat, inner: Bytes, ad: Bytes): Frame
    requires sequence < Pow(256, SequenceSize)
  {
    WiderNonce(sequence);
    Frame(Binary, ToBytes(sequence, SequenceSize) + c.seal(key, ToBytes(sequence, NonceLen), ad, inner))
  }

  lemma WiderNonce(sequence: nat)
    requires sequence < Pow(256, SequenceSize)
    ensures sequence < Pow(256, NonceLen)
  {}

  /** The counter has moved by the time a frame proves too wide or too large. */
  function SendEncrypted(c: Crypto, t: Transport, inner: Bytes, ad: Bytes): (Transport, Result<Frame, TransportError>) {
    var (ch, r) := Encrypt(c, t.channel, inner, ad);
    if r.Err? then (Transport(ch, true), Err(Refused(r.error)))
    else if r.value.sequence >= Pow(256, SequenceSize) then (t.(channel := ch), Err(SequenceTooWide))
    else if t.closed then (t.(channel := ch), Err(ConnectionClosed))
    else
      var f := Frame(Binary, ToBytes(r.value.sequence, SequenceSize) + r.value.ciphertext);
      if |f.payload| > MaxMessageSize then (t.(channel := ch), Err(PayloadTooLarge))
      else (t.(channel := ch), Ok(f))
  }

  // ---- Receiving -------------------------------------------------------------------------

  /** wellFormed tells which bytes json.loads accepts. */
  function Classify(wellFormed: Bytes -> bool, text: Bytes): Result<Received, TransportError> {
    if text == [] then Err(EmptyPayload)
    else if text[0] == TypeJson then
      if wellFormed(text[1..]) then Ok(JsonMessage(text[1..])) else Err(MalformedJson)
    else if text[0] == TypeBinary then Ok(BinaryData(text[1..]))
    else Ok(RawData(text))
  }

  function ReceiveWire(c: Crypto, wellFormed: Bytes -> bool, t: Transport, f: Frame, ad: Bytes)
      : (Transport, Result<Received, TransportError>) {
    if f.kind != Binary then (t, Err(if wellFormed(f.payload) then PlainFrame else BadFrame))
    else if |f.payload| < MinEncryptedPayload then (t, Err(TooShort))
    else
      var sequence := FromBytes(f.payload[..SequenceSize]);
      var (ch, r) := Decrypt(c, t.channel, sequence, f.payload[SequenceSize..], ad);
      (t.(channel := ch), if r.Err? then Err(Refused(r.error)) else Classify(wellFormed, r.value))
  }

  function ReceiveFrame(c: Crypto, wellFormed: Bytes -> bool, t: Transport, stream: Bytes, ad: Bytes)
      : (Transport, Bytes, Result<Received, TransportError>) {
    if t.closed then (t, stream, Err(ConnectionClosed)) else
    match ReadOne(stream)
    case ReadErr(IncompleteRead, rest) => (t.(closed := true), rest, Err(ConnectionClosed))
    case ReadErr(_, rest) => (t, rest, Err(BadFrame))
    case ReadOk(f, rest) => var (t', r) := ReceiveWire(c, wellFormed, t, f, ad); (t', rest, r)
  }

  class EncryptedTransport {
    const c: Crypto
    const wellFormed: Bytes -> bool
    const channel: SecureChannel
    const reader: StreamReader
    var closed: bool
    var written: seq<Frame>

    constructor (c: Crypto, wellFormed: Bytes -> bool, channel: SecureChannel, reader: StreamReader)
      requires channel.c == c
      ensures this.channel == channel && this.reader == reader
      ensures this.c == c && this.wellFormed == wellFormed && written == [] && !closed
    {
      this.c, this.wellFormed, this.channel, this.reader := c, wellFormed, channel, reader;
      closed, written := false, [];
    }

    function Contents(): Transport
      reads this, channel
    {
      Transport(channel.Contents(), closed)
    }

    method SendInner(inner: Bytes, ad: Bytes) returns (r: Result<(), TransportError>)
      requires channel.c == c
      modifies this, channel
      ensures var spec := SendEncrypted(c, old(Contents()), inner, ad);
              && Contents() == spec.0
              && (if spec.1.Ok? then r == Ok(()) && written == old(written) + [spec.1.value]
                  else r == Err(spec.1.error) && written == old(written))
    {
      var frame := channel.EncryptNext(inner, ad);
      if frame.Err? {
        closed := true;
        return Err(Refused(frame.error));
      }
      if frame.value.sequence >= Pow(256, SequenceSize) {
        return Err(SequenceTooWide);
      }
      var wire := ToBytes(frame.value.sequence, SequenceSize) + frame.value.ciphertext;
      if closed {
        return Err(ConnectionClosed);
      }
      if |wire| > MaxMessageSize {
        return Err(PayloadTooLarge);
      }
      written := written + [Frame(Binary, wire)];
      return Ok(());
    }

    method SendMessage(text: Bytes, ad: Bytes) returns (r: Result<(), TransportError>)
      requires channel.c == c
      modifies this, channel
      ensures var spec := SendEncrypted(c, old(Contents()), [TypeJson] + text, ad);
              && Contents() == spec.0
              && (if spec.1.Ok? then r == Ok(()) && written == old(written) + [spec.1.value]
                  else r == Err(spec.1.error) && written == old(written))
    {
      r := SendInner([TypeJson] + text, ad);
    }

    method SendBinary(data: Bytes, ad: Bytes) returns (r: Result<(), TransportError>)
      requires channel.c == c
      modifies this, channel
      ensures var spec := SendEncrypted(c, old(Contents()), [TypeBinary] + data, ad);
              && Contents() == spec.0
              && (if spec.1.Ok? then r == Ok(()) && written == old(written) + [spec.1.value]
                  else r == Err(spec.1.error) && written == old(written))
    {
      r := SendInner([TypeBinary] + data, ad);
    }

    method Receive(ad: Bytes) returns (r: Result<Received, TransportError>)
      requires channel.c == c
      modifies this, channel, reader
      ensures (Contents(), reader.data, r) == ReceiveFrame(c, wellFormed, old(Contents()), old(reader.data), ad)
      ensures written == old(written)
    {
      if closed {
        return Err(ConnectionClosed);
      }
      var frame := reader.ReadRaw();
      if frame.Err? {
        if frame.error == IncompleteRead {
          closed := true;
          return Err(ConnectionClosed);
        }
        return Err(BadFrame);
      }
      if frame.value.kind != Binary {
        return Err(if wellFormed(frame.value.payload) then PlainFrame else BadFrame);
      }
      var wire := frame.value.payload;
      if |wire| < MinEncryptedPayload {
        return Err(TooShort);
      }
      var sequence := FromBytes(wire[..SequenceSize]);
      var text := channel.DecryptNext(sequence, wire[SequenceSize..], ad);
      if text.Err? {
        return Err(Refused(text.error));
      }
      return Classify(wellFormed, text.value);
    }
  }

  // ---- When the receive counter moves -----------------------------------------------------------------------

  /** The text a frame opens to, when it is binary, long enough, carries the
    * number expected next and is authentic. */
  function Opens(c: Crypto, ch: Channel, f: Frame, ad: Bytes): Option<Bytes> {
    if f.kind != Binary || |f.payload| < MinEncryptedPayload then None else
    var n := FromBytes(f.payload[..SequenceSize]);
    if n != ch.expectedRecv then None else
    WiderNonce(n);
    c.unseal(ch.keys.recvKey, ToBytes(n, NonceLen), ad, f.payload[SequenceSize..])
  }

  /** Content that is refused once it is decrypted. */
  predicate RefusedContent(wellFormed: Bytes -> bool, text: Bytes) {
    text == [] || (text[0] == TypeJson && !wellFormed(text[1..]))
  }

  lemma ReceiveWireMoves(c: Crypto, wellFormed: Bytes -> bool, t: Transport, f: Frame, ad: Bytes)
    ensures var (t', r) := ReceiveWire(c, wellFormed, t, f, ad);
            match Opens(c, t.channel, f, ad)
            case None => t' == t && r.Err?
            case Some(text) => t' == Got(t) && r == Classify(wellFormed, text)
  {
    if |f.payload| >= MinEncryptedPayload { WiderNonce(FromBytes(f.payload[..SequenceSize])); }
  }

  /** Why a frame is refused, in terms of the frame: unencrypted, too short for a
    * number and a tag, out of order, or not authentic. */
  lemma WireRefusedExactly(c: Crypto, wellFormed: Bytes -> bool, t: Transport, f: Frame, ad: Bytes)
    ensures var r := ReceiveWire(c, wellFormed, t, f, ad).1;
            && (r == Err(PlainFrame) <==> f.kind.Json? && wellFormed(f.payload))
            && (r == Err(BadFrame) <==> f.kind.Json? && !wellFormed(f.payload))
            && (r == Err(TooShort) <==> f.kind.Binary? && |f.payload| < 24)
            && (f.kind.Binary? && |f.payload| >= 24 ==>
                  var n := FromBytes(f.payload[..8]);
                  && (r == Err(Refused(ReplayOrReorder)) <==> n != t.channel.expectedRecv)
                  && (r == Err(Refused(DecryptionFailed)) <==>
                        n == t.channel.expectedRecv && Opens(c, t.channel, f, ad).None?))
  {
    ReceiveWireMoves(c, wellFormed, t, f, ad);
    if |f.payload| >= MinEncryptedPayload { WiderNonce(FromBytes(f.payload[..SequenceSize])); }
  }

  /** What a closed transport, a stream that ends and a bad header lead to. */
  lemma StreamRefusedExactly(c: Crypto, wellFormed: Bytes -> bool, t: Transport, stream: Bytes, ad: Bytes)
    ensures var (t', rest, r) := ReceiveFrame(c, wellFormed, t, stream, ad);
            && (t.closed ==> t' == t && rest == stream && r == Err(ConnectionClosed))
            && (!t.closed ==> (t'.closed <==> ReadOne(stream).ReadErr? && ReadOne(stream).error == IncompleteRead))
            && (!t.closed && t'.closed ==> rest == [] && r == Err(ConnectionClosed) && t'.channel == t.channel)
            && (!t.closed && ReadOne(stream).ReadErr? && ReadOne(stream).error == InvalidLength ==>
                  t' == t && rest == ReadOne(stream).rest && r == Err(BadFrame))
  {}

  /** Why a send is refused: the counter is past 96 or past 64 bits, the transport is
    * closed, or the frame would be larger than a frame may be. */
  lemma SendRefusedExactly(c: Crypto, t: Transport, inner: Bytes, ad: Bytes)
    requires c.AeadCorrect()
    ensures var n, r := t.channel.sendSequence, SendEncrypted(c, t, inner, ad).1;
            && (r == Err(Refused(SequenceExhausted)) <==> n >= Pow(256, 12))
            && (r == Err(SequenceTooWide) <==> Pow(256, 8) <= n < Pow(256, 12))
            && (r == Err(ConnectionClosed) <==> n < Pow(256, 8) && t.closed)
            && (r == Err(PayloadTooLarge) <==> n < Pow(256, 8) && !t.closed && |inner| + 24 > 104857600)
            && (r.Ok? <==> n < Pow(256, 8) && !t.closed && |inner| + 24 <= 104857600)
            && SendEncrypted(c, t, inner, ad).0.channel
            == t.channel.(sendSequence := if n < Pow(256, 12) then n + 1 else n)
  {
    if t.channel.sendSequence < Pow(256, 8) { WiderNonce(t.channel.sendSequence); }
  }

  /** A transport after it moved one of its counters. */
  function Got(t: Transport): Transport { t.(channel := t.channel.(expectedRecv := t.channel.expectedRecv + 1)) }

  /** A frame that is reported as an error has moved the receive counter exactly
    * when it is the peer's next authentic frame and its text is empty or marked
    * as JSON without being JSON. */
  lemma RejectionMovesCounter(c: Crypto, wellFormed: Bytes -> bool, t: Transport, stream: Bytes, ad: Bytes)
    ensures MovedByError(t, ReceiveFrame(c, wellFormed, t, stream, ad))
       <==> !t.closed && ReadOne(stream).ReadOk? && OpensToRefused(c, wellFormed, t.channel, ReadOne(stream).frame, ad)
  {
    if !t.closed && ReadOne(stream).ReadOk? { ReceiveWireMoves(c, wellFormed, t, ReadOne(stream).frame, ad); }
  }

  /** An error was reported, and the counters are not what they were. */
  predicate MovedByError(t: Transport, after: (Transport, Bytes, Result<Received, TransportError>)) {
    after.2.Err? && after.0.channel != t.channel
  }

  predicate OpensToRefused(c: Crypto, wellFormed: Bytes -> bool, ch: Channel, f: Frame, ad: Bytes) {
    var text := Opens(c, ch, f, ad);
    text.Some? && RefusedContent(wellFormed, text.value)
  }

  /** Such a frame, sent first on a fresh session: an empty text. */
  lemma EmptyTextMovesCounter(c: Crypto, wellFormed: Bytes -> bool, keys: SessionKeys, ad: Bytes)
    requires c.AeadCorrect()
    ensures var f := WireFrame(c, keys.recvKey, 0, [], ad); var t := Transport(Opened(keys), false);
            && Sendable(f) && Opens(c, t.channel, f, ad) == Some([])
            && ReceiveFrame(c, wellFormed, t, Encoded(f), ad) == (Got(t), [], Err(EmptyPayload))
  {
    var f, t := WireFrame(c, keys.recvKey, 0, [], ad), Transport(Opened(keys), false);
    assert f.payload[..SequenceSize] == ToBytes(0, SequenceSize);
    assert f.payload[SequenceSize..] == c.seal(keys.recvKey, ToBytes(0, NonceLen), ad, []);
    assert Encoded(f) + [] == Encoded(f);
    ReadEncoded(f, []);
    ReceiveWireMoves(c, wellFormed, t, f, ad);
  }
}

/** Any byte stream whatever, read by a transport whose peer encrypted some
  * payloads: what the reader gets. */
module HostileStream {
  import opened Wrappers
  import opened Bytes
  import opened Frames
  import opened Primitives
  import opened Kdf
  import opened SecureChannels
  import opened SecureTransports
  import opened LosslessSession
  import opened ChannelRuns

  /** The frames successive reads find, a bad length being skipped. */
  function FramesSeen(stream: Bytes): seq<Frame>
    decreases |stream|
  {
    match ReadOne(stream)
    case ReadOk(f, rest) => [f] + FramesSeen(rest)
    case ReadErr(InvalidLength, rest) => FramesSeen(rest)
    case ReadErr(_, _) => []
  }

  /** The results of the reads that moved the receive counter. */
  function Moves(c: Crypto, wellFormed: Bytes -> bool, t: Transport, stream: Bytes, ad: Bytes)
      : seq<Result<Received, TransportError>>
    decreases |stream|
  {
    var (t', rest, r) := ReceiveFrame(c, wellFormed, t, stream, ad);
    if r == Err(ConnectionClosed) || |rest| >= |stream| then []
    else if t'.channel != t.channel then [r] + Moves(c, wellFormed, t', rest, ad)
    else Moves(c, wellFormed, t', rest, ad)
  }

  /** Authenticity of the cipher on everything in the stream: whatever opens
    * under the receiving key was encrypted by a holder of it. */
  ghost predicate UnforgedFrames(c: Crypto, l: Link, e: End, fs: seq<Frame>, ad: Bytes) {
    var key := l.At(e).channel.keys.recvKey;
    forall f, nonce, text :: f in fs && |f.payload| >= SequenceSize && |nonce| == NonceLen
                             && c.unseal(key, nonce, ad, f.payload[SequenceSize..]) == Some(text)
      ==> exists g :: Use(key, nonce, ad, text) in l.At(g).uses
  }

  /** The texts one end encrypted, from number n on. */
  function TextsFrom(uses: seq<Use>, n: nat): (texts: seq<Bytes>)
    ensures |texts| == if n <= |uses| then |uses| - n else 0
    ensures forall i :: 0 <= i < |texts| ==> texts[i] == uses[n + i].text
  {
    if n > |uses| then [] else seq(|uses| - n, i requires 0 <= i < |uses| - n => uses[n + i].text)
  }

  /** The results are the first of these texts, classified. */
  ghost predicate Classified(wellFormed: Bytes -> bool, texts: seq<Bytes>, rs: seq<Result<Received, TransportError>>) {
    |rs| <= |texts| && forall i :: 0 <= i < |rs| ==> rs[i] == Classify(wellFormed, texts[i])
  }

  lemma OpenedIsNext(c: Crypto, l: Link, e: End, ch: Channel, f: Frame, fs: seq<Frame>, ad: Bytes)
    requires Safe(l) && ch.keys == l.At(e).channel.keys && f in fs && UnforgedFrames(c, l, e, fs, ad)
    requires Opens(c, ch, f, ad).Some?
    ensures ch.expectedRecv < |l.At(e.Peer()).uses|
    ensures l.At(e.Peer()).uses[ch.expectedRecv].text == Opens(c, ch, f, ad).value
  {
    WiderNonce(ch.expectedRecv);
    var use := Use(ch.keys.recvKey, ToBytes(ch.expectedRecv, NonceLen), ad, Opens(c, ch, f, ad).value);
    var g :| use in l.At(g).uses;
    UseIsPeers(l, e, g, use);
  }

  // ---- One read at a time ---------------------------------------------------------------------------------------

  /** What reading on gives, and which of it moved the counter. */
  function Reading(c: Crypto, wellFormed: Bytes -> bool, t: Transport, stream: Bytes, ad: Bytes)
      : (seq<Result<Received, TransportError>>, seq<Result<Received, TransportError>>) {
    (ReceiveAll(c, wellFormed, t, stream, ad), Moves(c, wellFormed, t, stream, ad))
  }

  lemma ReadFrame(c: Crypto, wellFormed: Bytes -> bool, t: Transport, stream: Bytes, ad: Bytes)
    requires !t.closed && ReadOne(stream).ReadOk?
    ensures var ReadOk(f, rest) := ReadOne(stream);
            && FramesSeen(stream) == [f] + FramesSeen(rest)
            && match Opens(c, t.channel, f, ad)
               case None =>
                 var (all, moved) := Reading(c, wellFormed, t, rest, ad);
                 var r := ReceiveWire(c, wellFormed, t, f, ad).1;
                 r.Err? && Reading(c, wellFormed, t, stream, ad) == ([r] + all, moved)
               case Some(text) =>
                 var (all, moved) := Reading(c, wellFormed, Got(t), rest, ad);
                 var r := Classify(wellFormed, text);
                 Reading(c, wellFormed, t, stream, ad) == ([r] + all, [r] + moved)
  {
    ReceiveWireMoves(c, wellFormed, t, ReadOne(stream).frame, ad);
  }

  lemma ReadNothing(c: Crypto, wellFormed: Bytes -> bool, t: Transport, stream: Bytes, ad: Bytes)
    requires t.closed || ReadOne(stream).ReadErr?
    ensures if !t.closed && ReadOne(stream).error == InvalidLength then
              var rest := ReadOne(stream).rest;
              var (all, moved) := Reading(c, wellFormed, t, rest, ad);
              && FramesSeen(stream) == FramesSeen(rest)
              && Reading(c, wellFormed, t, stream, ad) == ([Err(BadFrame)] + all, moved)
            else Reading(c, wellFormed, t, stream, ad) == ([], [])
  {}

  /** The transport after one frame was read. */
  function AfterFrame(c: Crypto, t: Transport, f: Frame, ad: Bytes): Transport {
    if Opens(c, t.channel, f, ad).Some? then Got(t) else t
  }

  lemma OneFrameMore(c: Crypto, wellFormed: Bytes -> bool, t: Transport, stream: Bytes, ad: Bytes, uses: seq<Use>)
    requires !t.closed && ReadOne(stream).ReadOk?
    requires var ReadOk(f, rest) := ReadOne(stream); var n := t.channel.expectedRecv; var u := AfterFrame(c, t, f, ad);
             && (Opens(c, t.channel, f, ad).Some? ==> n < |uses| && uses[n].text == Opens(c, t.channel, f, ad).value)
             && Classified(wellFormed, TextsFrom(uses, u.channel.expectedRecv), Moves(c, wellFormed, u, rest, ad))
    ensures Classified(wellFormed, TextsFrom(uses, t.channel.expectedRecv), Moves(c, wellFormed, t, stream, ad))
  {
    var ReadOk(f, rest) := ReadOne(stream);
    ReadFrame(c, wellFormed, t, stream, ad);
    if Opens(c, t.channel, f, ad).Some? {
      ClassifiedCons(wellFormed, uses, t.channel.expectedRecv, Moves(c, wellFormed, Got(t), rest, ad));
    }
  }

  /** Over any byte stream the reads that move the counter give, in order and
    * without gaps, what the peer encrypted next. */
  lemma {:induction false} MovesAreNext(c: Crypto, wellFormed: Bytes -> bool, l: Link, e: End, t: Transport,
                                        stream: Bytes, ad: Bytes)
    requires Safe(l) && !t.closed && t.channel.keys == l.At(e).channel.keys
    requires UnforgedFrames(c, l, e, FramesSeen(stream), ad)
    ensures Classified(wellFormed, TextsFrom(l.At(e.Peer()).uses, t.channel.expectedRecv),
                       Moves(c, wellFormed, t, stream, ad))
    decreases |stream|
  {
    match ReadOne(stream) {
      case ReadOk(f, rest) =>
        ReadFrame(c, wellFormed, t, stream, ad);
        FewerFrames(c, l, e, f, FramesSeen(rest), ad);
        MovesAreNext(c, wellFormed, l, e, AfterFrame(c, t, f, ad), rest, ad);
        if Opens(c, t.channel, f, ad).Some? { OpenedIsNext(c, l, e, t.channel, f, FramesSeen(stream), ad); }
        OneFrameMore(c, wellFormed, t, stream, ad, l.At(e.Peer()).uses);
      case ReadErr(err, rest) =>
        ReadNothing(c, wellFormed, t, stream, ad);
        if err == InvalidLength { MovesAreNext(c, wellFormed, l, e, t, rest, ad); }
    }
  }

  lemma ClassifiedCons(wellFormed: Bytes -> bool, uses: seq<Use>, n: nat, rs: seq<Result<Received, TransportError>>)
    requires n < |uses| && Classified(wellFormed, TextsFrom(uses, n + 1), rs)
    ensures Classified(wellFormed, TextsFrom(uses, n), [Classify(wellFormed, uses[n].text)] + rs)
  {
    assert TextsFrom(uses, n) == [uses[n].text] + TextsFrom(uses, n + 1);
  }

  lemma FewerFrames(c: Crypto, l: Link, e: End, f: Frame, fs: seq<Frame>, ad: Bytes)
    requires UnforgedFrames(c, l, e, [f] + fs, ad)
    ensures UnforgedFrames(c, l, e, fs, ad)
  {
    assert forall g :: g in fs ==> g in [f] + fs;
  }

  // ---- What is returned -----------------------------------------------------------------------------------------

  /** The payloads among some results. */
  function Payloads(rs: seq<Result<Received, TransportError>>): seq<Received> {
    if rs == [] then [] else (if rs[0].Ok? then [rs[0].value] else []) + Payloads(rs[1..])
  }

  lemma PayloadsCons(r: Result<Received, TransportError>, rs: seq<Result<Received, TransportError>>)
    ensures Payloads([r] + rs) == (if r.Ok? then [r.value] else []) + Payloads(rs)
  {
    assert ([r] + rs)[1..] == rs;
  }

  /** Every payload returned came from a read that moved the counter. */
  lemma {:induction false} ReturnedMoved(c: Crypto, wellFormed: Bytes -> bool, t: Transport, stream: Bytes, ad: Bytes)
    ensures var (all, moved) := Reading(c, wellFormed, t, stream, ad); Payloads(all) == Payloads(moved)
    decreases |stream|
  {
    if t.closed || ReadOne(stream).ReadErr? {
      ReadNothing(c, wellFormed, t, stream, ad);
      if !t.closed && ReadOne(stream).error == InvalidLength {
        var rest := ReadOne(stream).rest;
        ReturnedMoved(c, wellFormed, t, rest, ad);
        PayloadsCons(Err(BadFrame), Reading(c, wellFormed, t, rest, ad).0);
      }
    } else {
      var ReadOk(f, rest) := ReadOne(stream);
      ReadFrame(c, wellFormed, t, stream, ad);
      var next := if Opens(c, t.channel, f, ad).Some? then Got(t) else t;
      ReturnedMoved(c, wellFormed, next, rest, ad);
      PayloadsCons(Reading(c, wellFormed, t, stream, ad).0[0], Reading(c, wellFormed, next, rest, ad).0);
      PayloadsCons(Reading(c, wellFormed, t, stream, ad).0[0], Reading(c, wellFormed, next, rest, ad).1);
    }
  }

  lemma {:induction false} PayloadsOfClassified(wellFormed: Bytes -> bool, texts: seq<Bytes>,
                                                rs: seq<Result<Received, TransportError>>)
    requires Classified(wellFormed, texts, rs)
    ensures |Payloads(rs)| <= |rs|
    ensures |Payloads(rs)| == |rs| <==> forall i :: 0 <= i < |rs| ==> !RefusedContent(wellFormed, texts[i])
    ensures |Payloads(rs)| == |rs| ==> forall i :: 0 <= i < |rs| ==>
      Classify(wellFormed, texts[i]) == Ok(Payloads(rs)[i])
    decreases |rs|
  {
    if rs != [] {
      PayloadsOfClassified(wellFormed, texts[1..], rs[1..]);
      assert rs[0] == Classify(wellFormed, texts[0]);
      assert rs[0].Ok? <==> !RefusedContent(wellFormed, texts[0]);
      assert forall i :: 1 <= i < |rs| ==> texts[i] == texts[1..][i - 1];
    }
  }

  /** After any run of the peer, and on any byte stream: if m reads moved the counter, they consumed the peer's
    * next m texts, and the payloads returned are exactly those m precisely when
    * none of them has refused content. */
  lemma ReturnedIsPrefix(c: Crypto, wellFormed: Bytes -> bool, a: SessionKeys, b: SessionKeys, steps: seq<Step>, e: End,
                         t: Transport, stream: Bytes, ad: Bytes)
    requires Mirrored(a, b) && UnforgedRun(c, Start(a, b), steps) && !t.closed
    requires var l := After(c, Start(a, b), steps);
             t.channel.keys == l.At(e).channel.keys && UnforgedFrames(c, l, e, FramesSeen(stream), ad)
    ensures var texts := TextsFrom(After(c, Start(a, b), steps).At(e.Peer()).uses, t.channel.expectedRecv);
            var m := |Moves(c, wellFormed, t, stream, ad)|;
            var got := Payloads(ReceiveAll(c, wellFormed, t, stream, ad));
            && |got| <= m <= |texts|
            && (|got| == m <==> forall i :: 0 <= i < m ==> !RefusedContent(wellFormed, texts[i]))
            && (|got| == m ==> forall i :: 0 <= i < m ==> Classify(wellFormed, texts[i]) == Ok(got[i]))
  {
    var l := After(c, Start(a, b), steps);
    RunIsSafe(c, a, b, steps);
    MovesAreNext(c, wellFormed, l, e, t, stream, ad);
    ReturnedMoved(c, wellFormed, t, stream, ad);
    PayloadsOfClassified(wellFormed, TextsFrom(l.At(e.Peer()).uses, t.channel.expectedRecv),
                         Moves(c, wellFormed, t, stream, ad));
  }

  /** What send_binary, and send_message of real JSON, encrypt is never refused
    * and is returned as it was given; so is a text marked with neither B nor J. */
  lemma HonestContent(wellFormed: Bytes -> bool, body: Bytes)
    ensures [TypeBinary] == Ascii("B") && [TypeJson] == Ascii("J")
    ensures body != [] && body[0] != TypeBinary && body[0] != TypeJson ==>
              !RefusedContent(wellFormed, body) && Classify(wellFormed, body) == Ok(RawData(body))
    ensures !RefusedContent(wellFormed, [TypeBinary] + body)
    ensures Classify(wellFormed, [TypeBinary] + body) == Ok(BinaryData(body))
    ensures wellFormed(body) ==> !RefusedContent(wellFormed, [TypeJson] + body)
    ensures wellFormed(body) ==> Classify(wellFormed, [TypeJson] + body) == Ok(JsonMessage(body))
  {
    assert ([TypeBinary] + body)[1..] == body && ([TypeJson] + body)[1..] == body;
  }
}

/** A whole session over a link that loses nothing: which sends arrive. */
module LosslessSession {
  import opened Wrappers
  import opened Positional
  import opened Bytes
  import opened Frames
  import opened FileData
  import opened Primitives
  import opened Kdf
  import opened SecureChannels
  import opened SecureTransports

  /** The answers of a machine to a list of inputs. */
  function Outcomes<S, F, R>(step: (S, F) -> (S, R), t: S, fs: seq<F>): seq<R>
    decreases |fs|
  {
    if fs == [] then [] else
      var (t', r) := step(t, fs[0]);
      [r] + Outcomes(step, t', fs[1..])
  }

  lemma {:induction false} OutcomesFrom<S, F, R>(step: (S, F) -> (S, R), fs: seq<F>, states: seq<S>, rs: seq<R>, j: nat)
    requires |states| == |rs| + 1 && j <= |rs| <= |fs|
    requires forall i {:trigger rs[i]} :: 0 <= i < |rs| ==> step(states[i], fs[i]) == (states[i + 1], rs[i])
    ensures Outcomes(step, states[j], fs[j..]) == rs[j..] + Outcomes(step, states[|rs|], fs[|rs|..])
    decreases |rs| - j
  {
    if j < |rs| {
      OutcomesFrom(step, fs, states, rs, j + 1);
      assert step(states[j], fs[j]) == (states[j + 1], rs[j]);
      assert fs[j..][0] == fs[j] && fs[j..][1..] == fs[j + 1..];
      assert rs[j..] == [rs[j]] + rs[j + 1..];
    }
  }

  lemma OutcomesPrefix<S, F, R>(step: (S, F) -> (S, R), fs: seq<F>, states: seq<S>, rs: seq<R>)
    requires |states| == |rs| + 1 && |rs| <= |fs|
    requires forall i {:trigger rs[i]} :: 0 <= i < |rs| ==> step(states[i], fs[i]) == (states[i + 1], rs[i])
    ensures Outcomes(step, states[0], fs) == rs + Outcomes(step, states[|rs|], fs[|rs|..])
  {
    OutcomesFrom(step, fs, states, rs, 0);
    assert fs[0..] == fs && rs[0..] == rs;
  }

  /** The frames written by a list of sends, and the sender afterwards. */
  function SendAll(c: Crypto, t: Transport, inners: seq<Bytes>, ad: Bytes): (Transport, seq<Frame>)
    decreases |inners|
  {
    if inners == [] then (t, []) else
      var (t', r) := SendEncrypted(c, t, inners[0], ad);
      var (t'', fs) := SendAll(c, t', inners[1..], ad);
      (t'', if r.Ok? then [r.value] + fs else fs)
  }

  /** What a reader that calls receive_frame until the stream ends gets. */
  function ReceiveAll(c: Crypto, wellFormed: Bytes -> bool, t: Transport, stream: Bytes, ad: Bytes)
      : seq<Result<Received, TransportError>>
    decreases |stream|
  {
    var (t', rest, r) := ReceiveFrame(c, wellFormed, t, stream, ad);
    if r == Err(ConnectionClosed) || |rest| >= |stream| then [] else [r] + ReceiveAll(c, wellFormed, t', rest, ad)
  }

  /** A send numbered n gets onto the wire. */
  predicate Fits(n: nat, inner: Bytes) {
    n < Pow(256, SequenceSize) && MinEncryptedPayload + |inner| <= MaxMessageSize
  }

  /** How many sends precede the first that does not fit, from number n on. */
  function Leading(n: nat, inners: seq<Bytes>): (k: nat)
    ensures k <= |inners|
    decreases |inners|
  {
    if inners == [] || !Fits(n, inners[0]) then 0 else 1 + Leading(n + 1, inners[1..])
  }

  ghost predicate SequenceAtLeast(f: Frame, n: nat) {
    f.kind == Binary && MinEncryptedPayload <= |f.payload| <= MaxMessageSize
      && FromBytes(f.payload[..SequenceSize]) >= n
  }

  lemma SendFits(c: Crypto, t: Transport, inner: Bytes, ad: Bytes)
    requires c.AeadCorrect() && !t.closed
    ensures var n := t.channel.sendSequence; var (t', r) := SendEncrypted(c, t, inner, ad);
            if Fits(n, inner) then
              && r == Ok(WireFrame(c, t.channel.keys.sendKey, n, inner, ad))
              && t' == t.(channel := t.channel.(sendSequence := n + 1))
            else
              && r.Err? && t'.channel.keys == t.channel.keys
              && (if n < Pow(256, NonceLen) then t' == t.(channel := t.channel.(sendSequence := n + 1)) else t'.closed)
  {}

  lemma SendClosed(c: Crypto, t: Transport, inner: Bytes, ad: Bytes)
    requires t.closed
    ensures SendEncrypted(c, t, inner, ad).1.Err? && SendEncrypted(c, t, inner, ad).0.closed
  {}

  /** After a closed transport nothing more is written. */
  lemma {:induction false} ClosedWritesNothing(c: Crypto, t: Transport, inners: seq<Bytes>, ad: Bytes)
    requires t.closed
    ensures SendAll(c, t, inners, ad).1 == []
    decreases |inners|
  {
    if inners != [] {
      SendClosed(c, t, inners[0], ad);
      ClosedWritesNothing(c, SendEncrypted(c, t, inners[0], ad).0, inners[1..], ad);
    }
  }

  lemma WireIsSendable(c: Crypto, key: Bytes, n: nat, inner: Bytes, ad: Bytes)
    requires c.AeadCorrect() && Fits(n, inner)
    ensures SequenceAtLeast(WireFrame(c, key, n, inner, ad), n) && Sendable(WireFrame(c, key, n, inner, ad))
    ensures WireFrame(c, key, n, inner, ad).payload[..SequenceSize] == ToBytes(n, SequenceSize)
  {}

  /** Every frame written carries a number no smaller than the counter was. */
  lemma {:induction false} NumbersGrow(c: Crypto, t: Transport, inners: seq<Bytes>, ad: Bytes)
    requires c.AeadCorrect() && !t.closed
    ensures forall i :: 0 <= i < |SendAll(c, t, inners, ad).1| ==>
              SequenceAtLeast(SendAll(c, t, inners, ad).1[i], t.channel.sendSequence)
    decreases |inners|
  {
    if inners != [] {
      var n, t' := t.channel.sendSequence, SendEncrypted(c, t, inners[0], ad).0;
      SendFits(c, t, inners[0], ad);
      if Fits(n, inners[0]) { WireIsSendable(c, t.channel.keys.sendKey, n, inners[0], ad); }
      if t'.closed {
        ClosedWritesNothing(c, t', inners[1..], ad);
      } else {
        NumbersGrow(c, t', inners[1..], ad);
      }
    }
  }

  function Reader(c: Crypto, wellFormed: Bytes -> bool, ad: Bytes)
      : (Transport, Frame) -> (Transport, Result<Received, TransportError>) {
    (t: Transport, f: Frame) => ReceiveWire(c, wellFormed, t, f, ad)
  }

  /** The same on frames already cut from the stream. */
  function ReceiveFrames(c: Crypto, wellFormed: Bytes -> bool, t: Transport, fs: seq<Frame>, ad: Bytes)
      : seq<Result<Received, TransportError>> {
    Outcomes(Reader(c, wellFormed, ad), t, fs)
  }

  lemma {:induction false} StreamIsFrames(c: Crypto, wellFormed: Bytes -> bool, t: Transport, fs: seq<Frame>, ad: Bytes)
    requires !t.closed && AllSendable(fs)
    ensures ReceiveAll(c, wellFormed, t, Stream(fs), ad) == ReceiveFrames(c, wellFormed, t, fs, ad)
    decreases |fs|
  {
    if fs != [] {
      var rest := Stream(fs[1..]);
      var (t', r) := ReceiveWire(c, wellFormed, t, fs[0], ad);
      ReadEncoded(fs[0], rest);
      assert ReceiveFrame(c, wellFormed, t, Stream(fs), ad) == (t', rest, r);
      StreamIsFrames(c, wellFormed, t', fs[1..], ad);
      assert ReceiveFrames(c, wellFormed, t, fs, ad) == [r] + ReceiveFrames(c, wellFormed, t', fs[1..], ad);
    }
  }

  /** Frames with a number the receiver does not expect are each refused and
    * change nothing. */
  lemma {:induction false} StaleFramesRefused(c: Crypto, wellFormed: Bytes -> bool, t: Transport, fs: seq<Frame>,
                                              ad: Bytes)
    requires forall i :: 0 <= i < |fs| ==> SequenceAtLeast(fs[i], t.channel.expectedRecv + 1)
    ensures ReceiveFrames(c, wellFormed, t, fs, ad) == seq(|fs|, _ => Err(Refused(ReplayOrReorder)))
  {
    if fs != [] {
      assert ReceiveWire(c, wellFormed, t, fs[0], ad) == (t, Err(Refused(ReplayOrReorder)));
      StaleFramesRefused(c, wellFormed, t, fs[1..], ad);
    }
  }

  lemma ReceiveGenuine(c: Crypto, wellFormed: Bytes -> bool, r: Transport, inner: Bytes, ad: Bytes)
    requires c.AeadCorrect() && Fits(r.channel.expectedRecv, inner)
    ensures ReceiveWire(c, wellFormed, r, WireFrame(c, r.channel.keys.recvKey, r.channel.expectedRecv, inner, ad), ad)
         == (Got(r), Classify(wellFormed, inner))
  {}

  /** The results a lossless link gives: each send before the first that does
    * not fit, in order and intact, and then one refusal per later frame. */
  function Expected(wellFormed: Bytes -> bool, inners: seq<Bytes>, k: nat, total: nat)
      : seq<Result<Received, TransportError>>
    requires k <= |inners|
  {
    seq(total, i => if 0 <= i < k then Classify(wellFormed, inners[i]) else Err(Refused(ReplayOrReorder)))
  }

  // ---- What is written -----------------------------------------------------------------------

  function Writer(c: Crypto, ad: Bytes): (Transport, Bytes) -> (Transport, Result<Frame, TransportError>) {
    (t: Transport, inner: Bytes) => SendEncrypted(c, t, inner, ad)
  }

  function Emitted<F, E>(rs: seq<Result<F, E>>): seq<F> {
    if rs == [] then [] else (if rs[0].Ok? then [rs[0].value] else []) + Emitted(rs[1..])
  }

  lemma {:induction false} EmittedAfter<F, E>(fs: seq<F>, oks: seq<Result<F, E>>, rs: seq<Result<F, E>>)
    requires |oks| == |fs| && forall i :: 0 <= i < |fs| ==> oks[i] == Ok(fs[i])
    ensures Emitted(oks + rs) == fs + Emitted(rs)
    decreases |fs|
  {
    if fs == [] {
      assert oks + rs == rs;
    } else {
      assert (oks + rs)[1..] == oks[1..] + rs;
      EmittedAfter(fs[1..], oks[1..], rs);
      assert fs == [fs[0]] + fs[1..];
    }
  }

  lemma {:induction false} SendAllIsEmitted(c: Crypto, t: Transport, inners: seq<Bytes>, ad: Bytes)
    ensures SendAll(c, t, inners, ad).1 == Emitted(Outcomes(Writer(c, ad), t, inners))
    decreases |inners|
  {
    if inners != [] {
      var t', r := SendEncrypted(c, t, inners[0], ad).0, SendEncrypted(c, t, inners[0], ad).1;
      SendAllIsEmitted(c, t', inners[1..], ad);
      var rest := Outcomes(Writer(c, ad), t', inners[1..]);
      assert Outcomes(Writer(c, ad), t, inners) == [r] + rest && ([r] + rest)[1..] == rest;
    }
  }

  predicate AllFit(n: nat, inners: seq<Bytes>) {
    forall i :: 0 <= i < |inners| ==> Fits(n + i, inners[i])
  }

  lemma {:induction false} LeadingFits(n: nat, inners: seq<Bytes>)
    ensures AllFit(n, inners[..Leading(n, inners)])
    ensures Leading(n, inners) < |inners| ==> !Fits(n + Leading(n, inners), inners[Leading(n, inners)])
    decreases |inners|
  {
    if inners != [] && Fits(n, inners[0]) {
      LeadingFits(n + 1, inners[1..]);
      var k := Leading(n, inners);
      assert inners[..k][1..] == inners[1..][..k - 1];
      forall i | 0 < i < k ensures Fits(n + i, inners[..k][i]) {
        assert Fits(n + 1 + (i - 1), inners[1..][..k - 1][i - 1]);
      }
    }
  }

  /** The frames of sends that all fit, numbered from n on. */
  function Wires(c: Crypto, key: Bytes, n: nat, inners: seq<Bytes>, ad: Bytes): seq<Frame>
    requires AllFit(n, inners)
  {
    seq(|inners|, i requires 0 <= i < |inners| => WireFrame(c, key, n + i, inners[i], ad))
  }

  function SentMany(t: Transport, k: nat): Transport {
    t.(channel := t.channel.(sendSequence := t.channel.sendSequence + k))
  }

  function GotMany(t: Transport, k: nat): Transport {
    t.(channel := t.channel.(expectedRecv := t.channel.expectedRecv + k))
  }

  lemma WriterStep(c: Crypto, t: Transport, i: nat, inner: Bytes, ad: Bytes)
    requires c.AeadCorrect() && !t.closed && Fits(t.channel.sendSequence + i, inner)
    ensures Writer(c, ad)(SentMany(t, i), inner)
         == (SentMany(t, i + 1), Ok(WireFrame(c, t.channel.keys.sendKey, t.channel.sendSequence + i, inner, ad)))
  {
    SendFits(c, SentMany(t, i), inner, ad);
  }

  lemma SenderPrefix<R>(step: (Transport, Bytes) -> (Transport, R), t: Transport, inners: seq<Bytes>, rs: seq<R>)
    requires |rs| <= |inners|
    requires forall i {:trigger rs[i]} :: 0 <= i < |rs| ==>
      step(SentMany(t, i), inners[i]) == (SentMany(t, i + 1), rs[i])
    ensures Outcomes(step, t, inners) == rs + Outcomes(step, SentMany(t, |rs|), inners[|rs|..])
  {
    var states := seq(|rs| + 1, i => if i >= 0 then SentMany(t, i) else t);
    assert states[0] == t;
    OutcomesPrefix(step, inners, states, rs);
  }

  lemma WriterPrefix(c: Crypto, t: Transport, inners: seq<Bytes>, fs: seq<Frame>, ad: Bytes)
      returns (rs: seq<Result<Frame, TransportError>>)
    requires c.AeadCorrect() && !t.closed && |fs| <= |inners| && AllFit(t.channel.sendSequence, inners[..|fs|])
    requires fs == Wires(c, t.channel.keys.sendKey, t.channel.sendSequence, inners[..|fs|], ad)
    ensures |rs| == |fs| && forall i :: 0 <= i < |fs| ==> rs[i] == Ok(fs[i])
    ensures Outcomes(Writer(c, ad), t, inners) == rs + Outcomes(Writer(c, ad), SentMany(t, |fs|), inners[|fs|..])
  {
    rs := seq(|fs|, i requires 0 <= i < |fs| => Ok(fs[i]));
    forall i {:trigger rs[i]} | 0 <= i < |rs|
      ensures Writer(c, ad)(SentMany(t, i), inners[i]) == (SentMany(t, i + 1), rs[i])
    {
      assert inners[..|fs|][i] == inners[i];
      WriterStep(c, t, i, inners[i], ad);
    }
    SenderPrefix(Writer(c, ad), t, inners, rs);
  }

  lemma SendsPrefix(c: Crypto, t: Transport, inners: seq<Bytes>, k: nat, ad: Bytes)
    requires c.AeadCorrect() && !t.closed && k <= |inners| && AllFit(t.channel.sendSequence, inners[..k])
    ensures SendAll(c, t, inners, ad).1
         == Wires(c, t.channel.keys.sendKey, t.channel.sendSequence, inners[..k], ad)
           + SendAll(c, SentMany(t, k), inners[k..], ad).1
  {
    var fs := Wires(c, t.channel.keys.sendKey, t.channel.sendSequence, inners[..k], ad);
    var rs := WriterPrefix(c, t, inners, fs, ad);
    SendAllIsEmitted(c, t, inners, ad);
    SendAllIsEmitted(c, SentMany(t, k), inners[k..], ad);
    EmittedAfter(fs, rs, Outcomes(Writer(c, ad), SentMany(t, k), inners[k..]));
  }

  /** From a send that does not fit on, every frame skips a number. */
  lemma MisfitWrites(c: Crypto, s: Transport, inners: seq<Bytes>, ad: Bytes) returns (rest: seq<Frame>)
    requires c.AeadCorrect() && !s.closed && (inners != [] ==> !Fits(s.channel.sendSequence, inners[0]))
    ensures rest == SendAll(c, s, inners, ad).1
    ensures forall i :: 0 <= i < |rest| ==> SequenceAtLeast(rest[i], s.channel.sendSequence + 1)
  {
    if inners == [] {
      rest := [];
    } else {
      var s' := SendEncrypted(c, s, inners[0], ad).0;
      SendFits(c, s, inners[0], ad);
      rest := SendAll(c, s', inners[1..], ad).1;
      if s'.closed {
        ClosedWritesNothing(c, s', inners[1..], ad);
      } else {
        NumbersGrow(c, s', inners[1..], ad);
      }
    }
  }

  /** The leading sends are written in order, and behind them only frames that
    * skip a number. */
  lemma SendsSplit(c: Crypto, t: Transport, inners: seq<Bytes>, k: nat, ad: Bytes)
      returns (fs: seq<Frame>, rest: seq<Frame>)
    requires c.AeadCorrect() && !t.closed && k <= |inners| && AllFit(t.channel.sendSequence, inners[..k])
    requires k < |inners| ==> !Fits(t.channel.sendSequence + k, inners[k])
    ensures fs == SendAll(c, t, inners, ad).1
    ensures fs == Wires(c, t.channel.keys.sendKey, t.channel.sendSequence, inners[..k], ad) + rest
    ensures forall i :: 0 <= i < |rest| ==> SequenceAtLeast(rest[i], t.channel.sendSequence + k + 1)
  {
    SendsPrefix(c, t, inners, k, ad);
    fs := SendAll(c, t, inners, ad).1;
    rest := MisfitWrites(c, SentMany(t, k), inners[k..], ad);
  }

  // ---- What is received ----------------------------------------------------------------------

  function Classified(wellFormed: Bytes -> bool, inners: seq<Bytes>): seq<Result<Received, TransportError>> {
    seq(|inners|, i requires 0 <= i < |inners| => Classify(wellFormed, inners[i]))
  }

  lemma ReaderStep(c: Crypto, wellFormed: Bytes -> bool, r: Transport, i: nat, inner: Bytes, ad: Bytes)
    requires c.AeadCorrect() && Fits(r.channel.expectedRecv + i, inner)
    ensures Reader(c, wellFormed, ad)(GotMany(r, i),
                                      WireFrame(c, r.channel.keys.recvKey, r.channel.expectedRecv + i, inner, ad))
         == (GotMany(r, i + 1), Classify(wellFormed, inner))
  {
    ReceiveGenuine(c, wellFormed, GotMany(r, i), inner, ad);
  }

  lemma ReceivesSplit(c: Crypto, wellFormed: Bytes -> bool, r: Transport, inners: seq<Bytes>, rest: seq<Frame>,
                      ad: Bytes)
    requires c.AeadCorrect() && AllFit(r.channel.expectedRecv, inners)
    ensures ReceiveFrames(c, wellFormed, r,
              Wires(c, r.channel.keys.recvKey, r.channel.expectedRecv, inners, ad) + rest, ad)
         == Classified(wellFormed, inners) + ReceiveFrames(c, wellFormed, GotMany(r, |inners|), rest, ad)
  {
    var k, step := |inners|, Reader(c, wellFormed, ad);
    var fs := Wires(c, r.channel.keys.recvKey, r.channel.expectedRecv, inners, ad);
    var states := seq(k + 1, i => if i >= 0 then GotMany(r, i) else r);
    var rs := Classified(wellFormed, inners);
    forall i {:trigger rs[i]} | 0 <= i < k ensures step(states[i], (fs + rest)[i]) == (states[i + 1], rs[i]) {
      assert (fs + rest)[i] == fs[i];
      ReaderStep(c, wellFormed, r, i, inners[i], ad);
    }
    OutcomesPrefix(step, fs + rest, states, rs);
    assert states[0] == r && (fs + rest)[k..] == rest;
  }

  lemma ExpectedSplits(wellFormed: Bytes -> bool, inners: seq<Bytes>, k: nat, m: nat)
    requires k <= |inners|
    ensures Expected(wellFormed, inners, k, k + m)
         == Classified(wellFormed, inners[..k]) + seq(m, _ => Err(Refused(ReplayOrReorder)))
  {}

  lemma WiresReceived(c: Crypto, wellFormed: Bytes -> bool, r: Transport, fs: seq<Frame>, inners: seq<Bytes>, k: nat,
                      rest: seq<Frame>, ad: Bytes)
    requires c.AeadCorrect() && k <= |inners| && AllFit(r.channel.expectedRecv, inners[..k])
    requires fs == Wires(c, r.channel.keys.recvKey, r.channel.expectedRecv, inners[..k], ad) + rest
    requires forall i :: 0 <= i < |rest| ==> SequenceAtLeast(rest[i], r.channel.expectedRecv + k + 1)
    ensures k <= |fs| && ReceiveFrames(c, wellFormed, r, fs, ad) == Expected(wellFormed, inners, k, |fs|)
  {
    ReceivesSplit(c, wellFormed, r, inners[..k], rest, ad);
    StaleFramesRefused(c, wellFormed, GotMany(r, k), rest, ad);
    ExpectedSplits(wellFormed, inners, k, |rest|);
  }

  lemma FramesDelivered(c: Crypto, wellFormed: Bytes -> bool, s: Transport, r: Transport, inners: seq<Bytes>, ad: Bytes)
    requires c.AeadCorrect() && !s.closed
    requires s.channel.keys.sendKey == r.channel.keys.recvKey
    requires s.channel.sendSequence == r.channel.expectedRecv
    ensures var fs := SendAll(c, s, inners, ad).1; var k := Leading(s.channel.sendSequence, inners);
            k <= |fs| && ReceiveFrames(c, wellFormed, r, fs, ad) == Expected(wellFormed, inners, k, |fs|)
  {
    var k := Leading(s.channel.sendSequence, inners);
    LeadingFits(s.channel.sendSequence, inners);
    var fs, rest := SendsSplit(c, s, inners, k, ad);
    WiresReceived(c, wellFormed, r, fs, inners, k, rest, ad);
  }

  /** Over a link that loses nothing, sends arrive up to the first that does
    * not fit, and from there on none does: the failed send has used up a
    * number the receiver waits for. */
  lemma LosslessDelivery(c: Crypto, wellFormed: Bytes -> bool, s: Transport, r: Transport, inners: seq<Bytes>,
                         ad: Bytes)
    requires c.AeadCorrect() && !s.closed && !r.closed
    requires s.channel.keys.sendKey == r.channel.keys.recvKey
    requires s.channel.sendSequence == r.channel.expectedRecv
    ensures var fs := SendAll(c, s, inners, ad).1; var k := Leading(s.channel.sendSequence, inners);
            && AllSendable(fs) && k <= |fs|
            && ReceiveAll(c, wellFormed, r, Stream(fs), ad) == Expected(wellFormed, inners, k, |fs|)
  {
    NumbersGrow(c, s, inners, ad);
    FramesDelivered(c, wellFormed, s, r, inners, ad);
    StreamIsFrames(c, wellFormed, r, SendAll(c, s, inners, ad).1, ad);
  }

  // ---- File chunks, end to end ---------------------------------------------------------------

  /** The inner payload a chunk is sent as. */
  function ChunkInner(ch: Chunk): Bytes
    requires EncodeFileData(ch).Ok?
  {
    [TypeBinary] + EncodeFileData(ch).value
  }

  function Inners(chunks: seq<Chunk>): seq<Bytes>
    requires forall i :: 0 <= i < |chunks| ==> EncodeFileData(chunks[i]).Ok?
  {
    seq(|chunks|, i requires 0 <= i < |chunks| => ChunkInner(chunks[i]))
  }

  lemma {:induction false} AllLead(n: nat, inners: seq<Bytes>)
    requires forall i :: 0 <= i < |inners| ==> Fits(n + i, inners[i])
    ensures Leading(n, inners) == |inners|
    decreases |inners|
  {
    if inners != [] {
      assert Fits(n + 0, inners[0]);
      forall i | 0 <= i < |inners| - 1 ensures Fits(n + 1 + i, inners[1..][i]) {
        assert Fits(n + (i + 1), inners[i + 1]);
      }
      AllLead(n + 1, inners[1..]);
    }
  }

  /** File chunks survive file_data, AEAD and frame encoding end to end. */
  lemma ChunksArrive(c: Crypto, wellFormed: Bytes -> bool, a: SessionKeys, b: SessionKeys, chunks: seq<Chunk>,
                     ad: Bytes)
    requires c.AeadCorrect() && Mirrored(a, b)
    requires |chunks| <= Pow(256, SequenceSize)
    requires forall i :: 0 <= i < |chunks| ==> EncodeFileData(chunks[i]).Ok? && |chunks[i].data| + 53 <= MaxMessageSize
    ensures var fs := SendAll(c, Transport(Opened(a), false), Inners(chunks), ad).1;
            && |fs| == |chunks| && AllSendable(fs)
            && var got := ReceiveAll(c, wellFormed, Transport(Opened(b), false), Stream(fs), ad);
               && |got| == |chunks|
               && forall i :: 0 <= i < |chunks| ==>
                    got[i].Ok? && got[i].value.BinaryData? && DecodeFileData(got[i].value.data) == Ok(chunks[i])
  {
    var s, r, inners := Transport(Opened(a), false), Transport(Opened(b), false), Inners(chunks);
    LosslessDelivery(c, wellFormed, s, r, inners, ad);
    AllLead(0, inners);
    WritesAtMost(c, s, inners, ad);
    var fs := SendAll(c, s, inners, ad).1;
    var got := ReceiveAll(c, wellFormed, r, Stream(fs), ad);
    forall i | 0 <= i < |chunks|
      ensures got[i].Ok? && got[i].value.BinaryData? && DecodeFileData(got[i].value.data) == Ok(chunks[i])
    {
      FileDataRoundTrip(chunks[i]);
      assert got[i] == Classify(wellFormed, inners[i]);
      assert inners[i][1..] == EncodeFileData(chunks[i]).value;
    }
  }

  lemma {:induction false} WritesAtMost(c: Crypto, t: Transport, inners: seq<Bytes>, ad: Bytes)
    ensures |SendAll(c, t, inners, ad).1| <= |inners|
    decreases |inners|
  {
    if inners != [] {
      WritesAtMost(c, SendEncrypted(c, t, inners[0], ad).0, inners[1..], ad);
    }
  }
}
