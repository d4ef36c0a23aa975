/** A file through every layer: chunker, file_data, encrypted transport,
  * framing, and back up to the receiver. */
module FileOverSession {
  import opened Wrappers
  import opened Positional
  import opened Bytes
  import opened Frames
  import opened FileData
  import opened Primitives
  import opened Kdf
  import opened SecureChannels
  import opened SecureTransports
  import opened LosslessSession
  import opened Chunker
  import opened FileReceivers
  import opened ReceiverRuns

  /** 53 bytes of headers: file_data, type marker, sequence number and tag. */
  const Overhead := 53

  function Wrap(id: TransferId, pieces: seq<Piece>): (r: seq<FileData.Chunk>)
    ensures |r| == |pieces|
  {
    seq(|pieces|, i requires 0 <= i < |pieces| =>
      FileData.Chunk(id, pieces[i].sequence, pieces[i].offset, pieces[i].data))
  }

  /** What the receiving session makes of one received frame. */
  function Unwrapped(r: Result<Received, TransportError>): Option<FileData.Chunk> {
    if r.Err? || !r.value.BinaryData? then None
    else
      var chunk := DecodeFileData(r.value.data);
      if chunk.Ok? then Some(chunk.value) else None
  }

  lemma PiecesFit(id: TransferId, file: Bytes, offset: nat, chunkSize: nat)
    requires 0 < chunkSize <= MaxMessageSize - Overhead && offset <= |file| < Pow(256, 4)
    ensures var chunks := Wrap(id, Chunks(file, offset, chunkSize));
            && |chunks| <= Pow(256, SequenceSize)
            && forall i :: 0 <= i < |chunks| ==>
              EncodeFileData(chunks[i]).Ok? && |chunks[i].data| + Overhead <= MaxMessageSize
  {
    var pieces := Chunks(file, offset, chunkSize);
    ChunksCover(file, offset, chunkSize);
    forall i | 0 <= i < |pieces| ensures pieces[i].sequence <= pieces[i].offset && i < |file| {
      QuotientBound(pieces[i].offset, chunkSize);
      MulMono(1, chunkSize, i);
    }
    if |pieces| > 0 { assert pieces[|pieces| - 1].sequence <= pieces[|pieces| - 1].offset; }
    assert Pow(256, 4) <= Pow(256, SequenceSize);
  }

  lemma QuotientBound(n: nat, d: nat)
    requires d > 0
    ensures n / d <= n
  {
    NatDivMod(n, d);
    MulMono(1, d, n / d);
  }

  /** Write each received chunk as it comes; true when every one was a chunk of
    * this transfer and was accepted. */
  function WriteReceived(o: Offer, p: Progress, files: Files, id: TransferId,
                         got: seq<Result<Received, TransportError>>)
      : (Progress, Files, bool)
    decreases |got|
  {
    if got == [] then (p, files, true)
    else match Unwrapped(got[0])
      case None => (p, files, false)
      case Some(chunk) =>
        if chunk.transferId != id then (p, files, false)
        else
          var (q, fs, r) := WriteChunk(o, p, files, chunk.sequence, chunk.offset, chunk.data);
          if r.Err? then (q, fs, false) else WriteReceived(o, q, fs, id, got[1..])
  }

  lemma {:induction false} ReceivedIsWritten(o: Offer, p: Progress, files: Files, id: TransferId,
                                             got: seq<Result<Received, TransportError>>, pieces: seq<Piece>)
    requires |got| == |pieces| && forall i :: 0 <= i < |pieces| ==> Unwrapped(got[i]) == Some(Wrap(id, pieces)[i])
    ensures WriteReceived(o, p, files, id, got) == WriteAll(o, p, files, pieces)
    decreases |got|
  {
    if got != [] {
      var (q, fs, r) := WriteChunk(o, p, files, pieces[0].sequence, pieces[0].offset, pieces[0].data);
      assert Unwrapped(got[0]) == Some(Wrap(id, pieces)[0]);
      forall i | 0 <= i < |pieces| - 1 ensures Unwrapped(got[1..][i]) == Some(Wrap(id, pieces[1..])[i]) {
        assert got[1..][i] == got[i + 1] && Wrap(id, pieces[1..])[i] == Wrap(id, pieces)[i + 1];
      }
      if r.Ok? { ReceivedIsWritten(o, q, fs, id, got[1..], pieces[1..]); }
    }
  }

  /** What a receiver gets when the stream it asked for is sent over an encrypted
    * connection that loses nothing. */
  function Carried(c: Crypto, wellFormed: Bytes -> bool, a: SessionKeys, b: SessionKeys, ad: Bytes,
                   chunks: seq<FileData.Chunk>)
      : seq<Result<Received, TransportError>>
    requires forall i :: 0 <= i < |chunks| ==> EncodeFileData(chunks[i]).Ok?
  {
    var frames := SendAll(c, Transport(Opened(a), false), Inners(chunks), ad).1;
    if AllSendable(frames) then ReceiveAll(c, wellFormed, Transport(Opened(b), false), Stream(frames), ad) else []
  }

  lemma CarriedIntact(c: Crypto, wellFormed: Bytes -> bool, a: SessionKeys, b: SessionKeys, ad: Bytes, id: TransferId,
                      file: Bytes, offset: nat, chunkSize: nat)
    requires c.AeadCorrect() && Mirrored(a, b)
    requires 0 < chunkSize <= MaxMessageSize - Overhead && offset <= |file| < Pow(256, 4)
    ensures var chunks := Wrap(id, Chunks(file, offset, chunkSize));
            && (forall i :: 0 <= i < |chunks| ==> EncodeFileData(chunks[i]).Ok?)
            && var got := Carried(c, wellFormed, a, b, ad, chunks);
               |got| == |chunks| && forall i :: 0 <= i < |chunks| ==> Unwrapped(got[i]) == Some(chunks[i])
  {
    PiecesFit(id, file, offset, chunkSize);
    ChunksArrive(c, wellFormed, a, b, Wrap(id, Chunks(file, offset, chunkSize)), ad);
  }

  /** A file sent through every layer and written as it is received ends as the
    * offered file at the destination, with no .part left and nothing else
    * changed, exactly when what the transfer resumed from was a prefix of it. */
  lemma FileArrives(c: Crypto, wellFormed: Bytes -> bool, a: SessionKeys, b: SessionKeys, ad: Bytes, id: TransferId,
                    o: Offer, digest: Digest, files: Files, resume: bool, file: Bytes)
    requires c.AeadCorrect() && Mirrored(a, b) && CollisionFree(digest)
    requires 0 < o.chunkSize <= MaxMessageSize - Overhead && o.size == |file| < Pow(256, 4)
      && o.checksum == digest(file)
    ensures var (p, fs, offset) := Prepare(o, files, resume);
            var chunks := Wrap(id, Chunks(file, offset, o.chunkSize));
            && (forall i :: 0 <= i < |chunks| ==> EncodeFileData(chunks[i]).Ok?)
            && var (q, gs, accepted) := WriteReceived(o, p, fs, id, Carried(c, wellFormed, a, b, ad, chunks));
               var (r, hs, done) := Finish(o, digest, q, gs);
               var part := PartPath(o.dest);
               var good := Resumes(o, files, resume) ==> files[part] <= file;
               && accepted && done == Ok(good) && r.status == (if good then Done else Failed)
               && hs == (if good then (files - {part})[o.dest := file] else files - {part})
  {
    var (p, fs, offset) := Prepare(o, files, resume);
    var pieces := Chunks(file, offset, o.chunkSize);
    CarriedIntact(c, wellFormed, a, b, ad, id, file, offset, o.chunkSize);
    ReceivedIsWritten(o, p, fs, id, Carried(c, wellFormed, a, b, ad, Wrap(id, pieces)), pieces);
    ResumeRoundTrip(o, digest, files, resume, file);
  }
}
