/** core/transfer/chunker.py and core/transfer/sender.py: a file as numbered
  * chunks from any offset. */
module Chunker {
  import opened Wrappers
  import opened Positional
  import opened Bytes

  datatype Piece = Piece(sequence: nat, offset: nat, data: Bytes)

  /** The chunks of a file from an offset on, numbered from sequence. */
  function ChunksFrom(file: Bytes, offset: nat, sequence: nat, chunkSize: nat): seq<Piece>
    requires chunkSize > 0 && offset <= |file|
    decreases |file| - offset
  {
    if offset == |file| then []
    else
      var end := if offset + chunkSize <= |file| then offset + chunkSize else |file|;
      [Piece(sequence, offset, file[offset..end])] + ChunksFrom(file, end, sequence + 1, chunkSize)
  }

  function Chunks(file: Bytes, start: nat, chunkSize: nat): seq<Piece>
    requires chunkSize > 0 && start <= |file|
  {
    ChunksFrom(file, start, start / chunkSize, chunkSize)
  }

  /** The generator, run to its end. */
  method ReadChunks(file: Bytes, start: nat, chunkSize: nat) returns (r: Result<seq<Piece>, ()>)
    requires chunkSize > 0
    ensures r == if start > |file| then Err(()) else Ok(Chunks(file, start, chunkSize))
  {
    if start > |file| {
      return Err(());
    }
    var unread := file[start..];
    var offset: nat, sequence: nat := start, start / chunkSize;
    var pieces: seq<Piece> := [];
    while true
      invariant offset <= |file| && unread == file[offset..]
      invariant Chunks(file, start, chunkSize) == pieces + ChunksFrom(file, offset, sequence, chunkSize)
      decreases |unread|
    {
      var n := if chunkSize <= |unread| then chunkSize else |unread|;
      var chunk := unread[..n];
      unread := unread[n..];
      if chunk == [] {
        assert offset == |file| && pieces + [] == pieces;
        return Ok(pieces);
      }
      assert chunk == file[offset..offset + n];
      pieces := pieces + [Piece(sequence, offset, chunk)];
      offset, sequence := offset + |chunk|, sequence + 1;
    }
  }

  function Joined(pieces: seq<Piece>): Bytes {
    if pieces == [] then [] else pieces[0].data + Joined(pieces[1..])
  }

  /** c is the i-th chunk from an offset on. */
  ghost predicate IsChunk(file: Bytes, offset: nat, chunkSize: nat, i: nat, c: Piece)
    requires chunkSize > 0
  {
    && c.sequence == c.offset / chunkSize && c.offset == offset + i * chunkSize && 1 <= |c.data| <= chunkSize
    && c.offset + |c.data| <= |file| && c.data == file[c.offset..c.offset + |c.data|]
  }

  /** The chunks put together are the rest of the file, none is empty or
    * longer than the chunk size, each starts where the one before ended, and
    * each is numbered by its offset divided by the chunk size. */
  lemma {:induction false} ChunksCover(file: Bytes, offset: nat, chunkSize: nat)
    requires chunkSize > 0 && offset <= |file|
    ensures var cs := Chunks(file, offset, chunkSize);
            && Joined(cs) == file[offset..]
            && forall i :: 0 <= i < |cs| ==> IsChunk(file, offset, chunkSize, i, cs[i])
    decreases |file| - offset
  {
    if offset + chunkSize <= |file| {
      ChunksCover(file, offset + chunkSize, chunkSize);
      ChunksStep(file, offset, chunkSize);
    } else if offset < |file| {
      LastChunk(file, offset, chunkSize);
    }
  }

  lemma LastChunk(file: Bytes, offset: nat, chunkSize: nat)
    requires 0 < chunkSize && offset < |file| < offset + chunkSize
    ensures var cs := Chunks(file, offset, chunkSize);
            Joined(cs) == file[offset..] && |cs| == 1 && IsChunk(file, offset, chunkSize, 0, cs[0])
  {
    assert ChunksFrom(file, |file|, offset / chunkSize + 1, chunkSize) == [];
    var c := Piece(offset / chunkSize, offset, file[offset..|file|]);
    assert Chunks(file, offset, chunkSize) == [c] && [c][1..] == [] && c.data + [] == c.data == file[offset..];
  }

  lemma ChunksStep(file: Bytes, offset: nat, chunkSize: nat)
    requires 0 < chunkSize && offset + chunkSize <= |file|
    requires var rest := Chunks(file, offset + chunkSize, chunkSize);
             && Joined(rest) == file[offset + chunkSize..]
             && forall i :: 0 <= i < |rest| ==> IsChunk(file, offset + chunkSize, chunkSize, i, rest[i])
    ensures var cs := Chunks(file, offset, chunkSize);
            && Joined(cs) == file[offset..]
            && forall i :: 0 <= i < |cs| ==> IsChunk(file, offset, chunkSize, i, cs[i])
  {
    var rest := Chunks(file, offset + chunkSize, chunkSize);
    var c := Piece(offset / chunkSize, offset, file[offset..offset + chunkSize]);
    NextNumber(offset, chunkSize);
    var cs := Chunks(file, offset, chunkSize);
    assert cs == [c] + rest && cs[1..] == rest;
    assert file[offset..] == c.data + file[offset + chunkSize..];
    forall i | 0 < i < |cs| ensures IsChunk(file, offset, chunkSize, i, cs[i]) {
      Later(file, offset, chunkSize, i, rest[i - 1]);
    }
  }

  lemma Later(file: Bytes, offset: nat, chunkSize: nat, i: nat, c: Piece)
    requires chunkSize > 0 && i > 0 && IsChunk(file, offset + chunkSize, chunkSize, i - 1, c)
    ensures IsChunk(file, offset, chunkSize, i, c)
  {
    OneMore(i - 1, chunkSize);
  }

  lemma OneMore(i: int, n: int)
    ensures (i + 1) * n == i * n + n
  {}

  lemma NextNumber(offset: nat, chunkSize: nat)
    requires chunkSize > 0
    ensures (offset + chunkSize) / chunkSize == offset / chunkSize + 1
  {
    NatDivMod(offset, chunkSize);
    var q, r := offset / chunkSize, offset % chunkSize;
    OneMore(q, chunkSize);
    NextQuotient(q + 1, chunkSize, r, offset + chunkSize);
  }

  lemma NextQuotient(q: int, n: nat, r: int, m: int)
    requires 0 <= r < n && m == q * n + r
    ensures m / n == q
  {
    DivModUnique(q, n, r);
  }

  /** The outgoing side's progress counter. */
  class FileSender {
    const file: Bytes
    const chunkSize: nat
    var bytesSent: nat
    var sending: bool

    constructor (file: Bytes, chunkSize: nat)
      ensures this.file == file && this.chunkSize == chunkSize && bytesSent == 0 && !sending
    {
      this.file, this.chunkSize := file, chunkSize;
      bytesSent, sending := 0, false;
    }

    method GetChunks(start: nat) returns (r: Result<seq<Piece>, ()>)
      requires chunkSize > 0
      modifies this
      ensures r == if start > |file| then Err(()) else Ok(Chunks(file, start, chunkSize))
      ensures sending && bytesSent == if start > |file| then start else |file|
    {
      sending, bytesSent := true, start;
      r := ReadChunks(file, start, chunkSize);
      if r.Ok? {
        ChunksCover(file, start, chunkSize);
        var pieces := r.value;
        for i := 0 to |pieces|
          invariant sending && bytesSent == start + |Joined(pieces[..i])|
        {
          JoinedAppend(pieces[..i], pieces[i]);
          assert pieces[..i + 1] == pieces[..i] + [pieces[i]];
          bytesSent := bytesSent + |pieces[i].data|;
        }
        assert pieces[..|pieces|] == pieces;
      }
    }
  }

  lemma {:induction false} JoinedAppend(a: seq<Piece>, p: Piece)
    ensures Joined(a + [p]) == Joined(a) + p.data
  {
    if a == [] {
      assert a + [p] == [p] && [p][1..] == [];
    } else {
      assert (a + [p])[1..] == a[1..] + [p];
      JoinedAppend(a[1..], p);
    }
  }
}

/** core/transfer/receiver.py and core/transfer/resume.py: an incoming file
  * staged beside its destination. */
module FileReceivers {
  import opened Wrappers
  import opened Bytes

  type Path = string
  type Files = map<Path, Bytes>

  const PartExtension := ".part"
  const MaxIncomingFileSize := 2 * 1024 * 1024 * 1024
  const DiskSafetyMargin := 10 * 1024 * 1024

  /** free is what disk_usage reports; None when it is not supported. */
  predicate CheckDiskSpace(free: Option<nat>, required: int) {
    free.Some? ==> free.value >= required + DiskSafetyMargin
  }

  function PartPath(dest: Path): Path { dest + PartExtension }

  /** Two destinations that share neither themselves nor their .part files. */
  predicate Separate(a: Path, b: Path) {
    a != b && a != PartPath(b) && PartPath(a) != b
  }

  lemma PartsDiffer(a: Path, b: Path)
    requires a != b
    ensures PartPath(a) != PartPath(b)
  {
    assert PartPath(a)[..|a|] == a && PartPath(b)[..|b|] == b;
  }

  function LowerChar(c: char): char { if 'A' <= c <= 'Z' then (c as int + 32) as char else c }

  function Lower(s: string): string { seq(|s|, i requires 0 <= i < |s| => LowerChar(s[i])) }

  /** SHA-256 in hexadecimal. Case aside, no two files share a digest. */
  type Digest = Bytes -> string

  ghost predicate CollisionFree(digest: Digest) {
    forall x, y :: Lower(digest(x)) == Lower(digest(y)) ==> x == y
  }

  datatype Status = Offered | Receiving | Verifying | Done | Failed

  datatype ChunkError = Inactive | OutOfOrder | SizeExceeded

  /** The offer, which never changes. */
  datatype Offer = Offer(size: nat, checksum: string, dest: Path, chunkSize: nat)

  /** The receiver's fields that change. */
  datatype Progress = Progress(bytesReceived: nat, expectedIndex: nat, status: Status, isOpen: bool)

  const Idle := Progress(0, 0, Offered, false)

  function PartialBytes(files: Files, path: Path): nat { if path in files then |files[path]| else 0 }

  // ---- Operations ----------------------------------------------------------------------------------

  predicate Resumes(o: Offer, files: Files, resume: bool) {
    resume && 0 < PartialBytes(files, PartPath(o.dest)) < o.size
  }

  function Prepare(o: Offer, files: Files, resume: bool): (Progress, Files, nat)
    requires o.chunkSize > 0
  {
    var n := PartialBytes(files, PartPath(o.dest));
    if Resumes(o, files, resume) then (Progress(n, n / o.chunkSize, Receiving, true), files, n)
    else (Progress(0, 0, Receiving, true), files[PartPath(o.dest) := []], 0)
  }

  function Append(files: Files, path: Path, data: Bytes): Files {
    files[path := (if path in files then files[path] else []) + data]
  }

  function WriteChunk(o: Offer, p: Progress, files: Files, sequence: int, offset: int, data: Bytes)
      : (Progress, Files, Result<(), ChunkError>) {
    if !p.isOpen || p.status != Receiving then (p, files, Err(Inactive))
    else if sequence != p.expectedIndex || offset != p.bytesReceived then (p, files, Err(OutOfOrder))
    else if p.bytesReceived + |data| > o.size then (p, files, Err(SizeExceeded))
    else (p.(bytesReceived := p.bytesReceived + |data|, expectedIndex := p.expectedIndex + 1),
          Append(files, PartPath(o.dest), data), Ok(()))
  }

  function Abort(o: Offer, p: Progress, files: Files, cleanup: bool): (Progress, Files) {
    (p.(isOpen := false, status := Failed), if cleanup then files - {PartPath(o.dest)} else files)
  }

  /** The error is the FileNotFoundError of hashing a missing .part file. */
  function Finish(o: Offer, digest: Digest, p: Progress, files: Files): (Progress, Files, Result<bool, ()>) {
    var part := PartPath(o.dest);
    var closed := p.(isOpen := false, status := Verifying);
    if p.bytesReceived != o.size then var (q, fs) := Abort(o, closed, files, true); (q, fs, Ok(false))
    else if part !in files then (closed, files, Err(()))
    else if Lower(digest(files[part])) != Lower(o.checksum) then
      var (q, fs) := Abort(o, closed, files, true); (q, fs, Ok(false))
    else (closed.(status := Done), (files - {part})[o.dest := files[part]], Ok(true))
  }

  class FileSystem {
    var files: Files

    constructor (files: Files)
      ensures this.files == files
    {
      this.files := files;
    }

    method Remove(path: Path)
      modifies this
      ensures files == old(files) - {path}
    {
      files := files - {path};
    }
  }

  class FileReceiver {
    const offer: Offer
    const digest: Digest
    const fs: FileSystem
    var bytesReceived: nat
    var expectedIndex: nat
    var status: Status
    var isOpen: bool

    constructor (offer: Offer, digest: Digest, fs: FileSystem)
      ensures this.offer == offer && this.digest == digest && this.fs == fs && Contents() == Idle
    {
      this.offer, this.digest, this.fs := offer, digest, fs;
      bytesReceived, expectedIndex, status, isOpen := 0, 0, Offered, false;
    }

    function Contents(): Progress
      reads this
    {
      Progress(bytesReceived, expectedIndex, status, isOpen)
    }

    method PrepareToReceive(resume: bool) returns (offset: nat)
      requires offer.chunkSize > 0
      modifies this, fs
      ensures (Contents(), fs.files, offset) == Prepare(offer, old(fs.files), resume)
    {
      var part := PartPath(offer.dest);
      if resume {
        var existing := PartialBytes(fs.files, part);
        if 0 < existing < offer.size {
          bytesReceived, expectedIndex := existing, existing / offer.chunkSize;
          isOpen, status := true, Receiving;
          return existing;
        }
      }
      fs.Remove(part);
      bytesReceived, expectedIndex := 0, 0;
      fs.files := fs.files[part := []];
      assert fs.files == old(fs.files)[part := []];
      isOpen, status := true, Receiving;
      return 0;
    }

    method Write(sequence: int, offset: int, data: Bytes) returns (r: Result<(), ChunkError>)
      modifies this, fs
      ensures (Contents(), fs.files, r) == WriteChunk(offer, old(Contents()), old(fs.files), sequence, offset, data)
    {
      if !isOpen || status != Receiving {
        return Err(Inactive);
      }
      if sequence != expectedIndex || offset != bytesReceived {
        return Err(OutOfOrder);
      }
      if bytesReceived + |data| > offer.size {
        return Err(SizeExceeded);
      }
      fs.files := Append(fs.files, PartPath(offer.dest), data);
      bytesReceived := bytesReceived + |data|;
      expectedIndex := expectedIndex + 1;
      return Ok(());
    }

    method AbortTransfer(cleanup: bool)
      modifies this, fs
      ensures (Contents(), fs.files) == Abort(offer, old(Contents()), old(fs.files), cleanup)
    {
      isOpen, status := false, Failed;
      if cleanup {
        fs.Remove(PartPath(offer.dest));
      }
    }

    method FinishTransfer() returns (r: Result<bool, ()>)
      modifies this, fs
      ensures (Contents(), fs.files, r) == Finish(offer, digest, old(Contents()), old(fs.files))
    {
      isOpen, status := false, Verifying;
      var part := PartPath(offer.dest);
      if bytesReceived != offer.size {
        AbortTransfer(true);
        return Ok(false);
      }
      if part !in fs.files {
        return Err(());
      }
      if Lower(digest(fs.files[part])) != Lower(offer.checksum) {
        AbortTransfer(true);
        return Ok(false);
      }
      var staged := fs.files[part];
      fs.Remove(part);
      fs.files := fs.files[offer.dest := staged];
      status := Done;
      return Ok(true);
    }
  }
}
