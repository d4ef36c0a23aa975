/** The file receiver against any sequence of calls, and against an honest
  * sender that resumes. */
module ReceiverRuns {
  import opened Wrappers
  import opened Bytes
  import opened Chunker
  import opened FileReceivers

  // ---- Any caller at all -------------------------------------------------------------------------

  datatype Op =
    | Preparing(resume: bool)
    | Chunk(sequence: int, offset: int, data: Bytes)
    | Finishing
    | Aborting(cleanup: bool)

  /** The receiver and the files, with what a bystander noted: whether it was
    * ever prepared, the bytes it resumed from and the chunks it accepted. */
  datatype State = State(progress: Progress, files: Files, prepared: bool, base: Bytes, accepted: seq<Bytes>)

  function Flatten(chunks: seq<Bytes>): Bytes {
    if chunks == [] then [] else Flatten(chunks[..|chunks| - 1]) + chunks[|chunks| - 1]
  }

  function Next(o: Offer, digest: Digest, s: State, op: Op): State
    requires o.chunkSize > 0
  {
    match op
    case Preparing(resume) =>
      var (p, files, _) := Prepare(o, s.files, resume);
      State(p, files, true, if Resumes(o, s.files, resume) then s.files[PartPath(o.dest)] else [], [])
    case Chunk(sequence, offset, data) =>
      var (p, files, r) := WriteChunk(o, s.progress, s.files, sequence, offset, data);
      s.(progress := p, files := files, accepted := if r.Ok? then s.accepted + [data] else s.accepted)
    case Finishing => var (p, files, _) := Finish(o, digest, s.progress, s.files); s.(progress := p, files := files)
    case Aborting(cleanup) => var (p, files) := Abort(o, s.progress, s.files, cleanup);
      s.(progress := p, files := files)
  }

  function After(o: Offer, digest: Digest, files: Files, ops: seq<Op>): State
    requires o.chunkSize > 0
  {
    if ops == [] then State(Idle, files, false, [], [])
    else Next(o, digest, After(o, digest, files, ops[..|ops| - 1]), ops[|ops| - 1])
  }

  /** The staged bytes are the resumed prefix and the accepted chunks in order,
    * as many as were counted and never more than were offered. */
  ghost predicate Staged(o: Offer, s: State) {
    && s.progress.bytesReceived <= o.size
    && (s.progress.isOpen <==> s.progress.status == Receiving)
    && (s.progress.isOpen ==> s.prepared && PartPath(o.dest) in s.files)
    && (!s.prepared ==> s.progress.bytesReceived == 0)
    && (s.prepared ==> |s.base + Flatten(s.accepted)| == s.progress.bytesReceived)
    && (s.prepared && PartPath(o.dest) in s.files ==> s.files[PartPath(o.dest)] == s.base + Flatten(s.accepted))
  }

  lemma DestIsNotPart(dest: Path)
    ensures dest != PartPath(dest)
  {}

  lemma PrepareKeepsStaged(o: Offer, digest: Digest, s: State, op: Op)
    requires o.chunkSize > 0 && op.Preparing?
    ensures Staged(o, Next(o, digest, s, op))
  {
    var base := if Resumes(o, s.files, op.resume) then s.files[PartPath(o.dest)] else [];
    assert base + Flatten([]) == base;
  }

  lemma ChunkKeepsStaged(o: Offer, digest: Digest, s: State, op: Op)
    requires o.chunkSize > 0 && Staged(o, s) && op.Chunk?
    ensures Staged(o, Next(o, digest, s, op))
  {
    assert (s.accepted + [op.data])[..|s.accepted|] == s.accepted;
    assert s.base + Flatten(s.accepted) + op.data == s.base + Flatten(s.accepted + [op.data]);
  }

  lemma StepKeepsStaged(o: Offer, digest: Digest, s: State, op: Op)
    requires o.chunkSize > 0 && Staged(o, s)
    ensures Staged(o, Next(o, digest, s, op))
  {
    DestIsNotPart(o.dest);
    if op.Preparing? {
      PrepareKeepsStaged(o, digest, s, op);
    } else if op.Chunk? {
      ChunkKeepsStaged(o, digest, s, op);
    }
  }

  /** Against every sequence of calls the staging invariant holds. */
  lemma {:induction false} AlwaysStaged(o: Offer, digest: Digest, files: Files, ops: seq<Op>)
    requires o.chunkSize > 0
    ensures Staged(o, After(o, digest, files, ops))
  {
    if ops != [] {
      AlwaysStaged(o, digest, files, ops[..|ops| - 1]);
      StepKeepsStaged(o, digest, After(o, digest, files, ops[..|ops| - 1]), ops[|ops| - 1]);
    }
  }

  ghost predicate SameAt(f: Files, g: Files, path: Path) {
    (path in f <==> path in g) && (path in f ==> f[path] == g[path])
  }

  /** In any run, a call that changes the destination is a finish that puts
    * exactly the staged bytes there, of the offered size and digest; nothing
    * but the destination and its .part file is ever touched. A finish that
    * was never prepared can only concern an offer of size zero. */
  lemma DestinationIsVerified(o: Offer, digest: Digest, files: Files, ops: seq<Op>, op: Op, path: Path)
    requires o.chunkSize > 0 && path != PartPath(o.dest)
    requires var s := After(o, digest, files, ops); !SameAt(s.files, Next(o, digest, s, op).files, path)
    ensures var s := After(o, digest, files, ops);
            var t := Next(o, digest, s, op);
            && path == o.dest && op.Finishing? && path in t.files && t.progress.status == Done
            && Lower(digest(t.files[path])) == Lower(o.checksum)
            && (s.prepared ==> t.files[path] == s.base + Flatten(s.accepted) && |t.files[path]| == o.size)
            && (!s.prepared ==> o.size == 0)
  {
    AlwaysStaged(o, digest, files, ops);
  }

  /** A chunk is taken exactly when the receiver is open and receiving, its number
    * and its place are the awaited ones and the total does not exceed the offer;
    * any other changes nothing, and the first of these that fails says why. */
  lemma ChunkExactly(o: Offer, p: Progress, files: Files, sequence: int, offset: int, data: Bytes)
    ensures var (q, fs, r) := WriteChunk(o, p, files, sequence, offset, data);
            var live := p.isOpen && p.status == Receiving;
            var next := sequence == p.expectedIndex && offset == p.bytesReceived;
            && (r.Ok? <==> live && next && p.bytesReceived + |data| <= o.size)
            && (r.Err? ==> q == p && fs == files)
            && (r.Err? ==> r.error == if !live then Inactive else if !next then OutOfOrder else SizeExceeded)
            && (r.Ok? ==> q.bytesReceived == p.bytesReceived + |data| && q.expectedIndex == p.expectedIndex + 1)
  {}

  /** Preparing goes on behind a partial file exactly when it is asked to resume and
    * finds one that is neither empty nor as long as the offer; otherwise it begins
    * with an empty file. */
  lemma PrepareExactly(o: Offer, files: Files, resume: bool)
    requires o.chunkSize > 0
    ensures var part := PartPath(o.dest); var (p, fs, offset) := Prepare(o, files, resume);
            var partial := resume && part in files && 0 < |files[part]| < o.size;
            && offset == (if partial then |files[part]| else 0)
            && p == Progress(offset, offset / o.chunkSize, Receiving, true)
            && fs == files[part := if partial then files[part] else []]
  {
    if Prepare(o, files, resume).2 == 0 { ZeroDiv(o.chunkSize); }
  }

  /** After any calls, a transfer aborted without cleanup is resumed with every byte
    * it had taken, and one aborted with cleanup leaves nothing to resume. */
  lemma ResumeAfterAbort(o: Offer, digest: Digest, files: Files, ops: seq<Op>)
    requires o.chunkSize > 0
    requires var s := After(o, digest, files, ops); s.progress.isOpen && 0 < s.progress.bytesReceived < o.size
    ensures var s := After(o, digest, files, ops); var part := PartPath(o.dest);
            var kept := Next(o, digest, Next(o, digest, s, Aborting(false)), Preparing(true));
            var gone := Next(o, digest, s, Aborting(true));
            && kept.progress.isOpen && kept.progress.bytesReceived == s.progress.bytesReceived
            && part in kept.files && kept.files[part] == s.base + Flatten(s.accepted)
            && gone.progress.status == Failed && !gone.progress.isOpen && part !in gone.files
            && Next(o, digest, gone, Preparing(true)).progress.bytesReceived == 0
  {
    AlwaysStaged(o, digest, files, ops);
    var s := After(o, digest, files, ops);
    PrepareExactly(o, Next(o, digest, s, Aborting(false)).files, true);
    PrepareExactly(o, Next(o, digest, s, Aborting(true)).files, true);
  }

  /** Equal but for the case of letters. */
  predicate SameButCase(a: string, b: string) {
    && |a| == |b|
    && forall i :: 0 <= i < |a| ==>
         || a[i] == b[i]
         || ('A' <= a[i] <= 'Z' && b[i] as int == a[i] as int + 32)
         || ('A' <= b[i] <= 'Z' && a[i] as int == b[i] as int + 32)
  }

  lemma LowerExactly(a: string, b: string)
    ensures Lower(a) == Lower(b) <==> SameButCase(a, b)
  {
    assert |Lower(a)| == |a| && |Lower(b)| == |b|;
    if |a| == |b| {
      assert forall i :: 0 <= i < |a| ==> Lower(a)[i] == LowerChar(a[i]) && Lower(b)[i] == LowerChar(b[i]);
    }
  }

  /** What finishing answers; when the .part file is missing it is an error only if
    * the count is right, and then nothing is touched. */
  lemma FinishVerdict(o: Offer, digest: Digest, p: Progress, files: Files)
    ensures var part := PartPath(o.dest); var (q, fs, r) := Finish(o, digest, p, files);
            if part in files then
              r == Ok(p.bytesReceived == o.size && SameButCase(digest(files[part]), o.checksum))
            else if p.bytesReceived == o.size then
              r == Err(()) && fs == files && q == p.(isOpen := false, status := Verifying)
            else r == Ok(false) && fs == files
  {
    if PartPath(o.dest) in files { LowerExactly(digest(files[PartPath(o.dest)]), o.checksum); }
    else { assert files - {PartPath(o.dest)} == files; }
  }

  /** After any calls, finishing a prepared transfer whose .part file is there
    * succeeds exactly when it has taken the offered number of bytes with the
    * offered digest, in either case of letters; otherwise it fails and leaves
    * neither the .part nor a new destination. */
  lemma FinishExactly(o: Offer, digest: Digest, files: Files, ops: seq<Op>)
    requires o.chunkSize > 0
    requires var s := After(o, digest, files, ops); s.prepared && PartPath(o.dest) in s.files
    ensures var s := After(o, digest, files, ops); var part := PartPath(o.dest);
            var (p, fs, r) := Finish(o, digest, s.progress, s.files);
            var staged := s.base + Flatten(s.accepted);
            && r == Ok(|staged| == o.size && SameButCase(digest(staged), o.checksum))
            && !p.isOpen && part !in fs
            && (r.value ==> p.status == Done && o.dest in fs && fs[o.dest] == staged)
            && (!r.value ==> p.status == Failed && SameAt(s.files, fs, o.dest))
  {
    var s := After(o, digest, files, ops);
    AlwaysStaged(o, digest, files, ops);
    DestIsNotPart(o.dest);
    FinishVerdict(o, digest, s.progress, s.files);
  }

  // ---- An honest sender ---------------------------------------------------------------------------

  /** Feed a list of pieces; true when every one is accepted. */
  function WriteAll(o: Offer, p: Progress, files: Files, pieces: seq<Piece>): (Progress, Files, bool)
    decreases |pieces|
  {
    if pieces == [] then (p, files, true)
    else
      var (q, fs, r) := WriteChunk(o, p, files, pieces[0].sequence, pieces[0].offset, pieces[0].data);
      if r.Err? then (q, fs, false) else WriteAll(o, q, fs, pieces[1..])
  }

  lemma {:induction false} StreamAccepted(o: Offer, p: Progress, files: Files, file: Bytes, chunkSize: nat)
    requires chunkSize > 0 && p.isOpen && p.status == Receiving
    requires p.bytesReceived <= |file| == o.size && PartPath(o.dest) in files
    ensures var pieces := ChunksFrom(file, p.bytesReceived, p.expectedIndex, chunkSize);
            && WriteAll(o, p, files, pieces).2
            && WriteAll(o, p, files, pieces).0
              == p.(bytesReceived := |file|, expectedIndex := p.expectedIndex + |pieces|)
            && WriteAll(o, p, files, pieces).1 == Append(files, PartPath(o.dest), file[p.bytesReceived..])
    decreases |file| - p.bytesReceived
  {
    var offset, part := p.bytesReceived, PartPath(o.dest);
    var pieces := ChunksFrom(file, offset, p.expectedIndex, chunkSize);
    if offset == |file| {
      assert files[part] + [] == files[part];
      assert Append(files, part, []) == files;
    } else {
      var end := if offset + chunkSize <= |file| then offset + chunkSize else |file|;
      var data := file[offset..end];
      var q, fs := p.(bytesReceived := end, expectedIndex := p.expectedIndex + 1), Append(files, part, data);
      StreamAccepted(o, q, fs, file, chunkSize);
      assert pieces[1..] == ChunksFrom(file, end, p.expectedIndex + 1, chunkSize);
      assert WriteChunk(o, p, files, pieces[0].sequence, pieces[0].offset, data) == (q, fs, Ok(()));
      AppendTwice(files, part, file, offset, end);
    }
  }

  lemma AppendTwice(files: Files, part: Path, file: Bytes, offset: nat, end: nat)
    requires offset <= end <= |file| && part in files
    ensures Append(Append(files, part, file[offset..end]), part, file[end..]) == Append(files, part, file[offset..])
  {
    assert file[offset..] == file[offset..end] + file[end..];
    assert (files[part] + file[offset..end]) + file[end..] == files[part] + file[offset..];
  }

  /** The whole exchange: prepare, stream from the offset it asks for, finish. */
  function Transfer(o: Offer, digest: Digest, files: Files, resume: bool, file: Bytes, chunkSize: nat)
      : (Progress, Files, bool, Result<bool, ()>)
    requires o.chunkSize > 0 && chunkSize > 0 && o.size == |file|
  {
    var (p, fs, offset) := Prepare(o, files, resume);
    var (q, gs, accepted) := WriteAll(o, p, fs, Chunks(file, offset, chunkSize));
    var (r, hs, done) := Finish(o, digest, q, gs);
    (r, hs, accepted, done)
  }

  /** With one chunk size on both sides no chunk is ever refused, and the
    * transfer yields exactly the file, with no .part left and nothing else
    * changed, precisely when what it resumed from was a prefix of the file;
    * otherwise it leaves no trace but the removed .part. */
  lemma ResumeRoundTrip(o: Offer, digest: Digest, files: Files, resume: bool, file: Bytes)
    requires o.chunkSize > 0 && o.size == |file| && o.checksum == digest(file) && CollisionFree(digest)
    ensures var (p, fs, accepted, done) := Transfer(o, digest, files, resume, file, o.chunkSize);
            var part := PartPath(o.dest);
            var good := Resumes(o, files, resume) ==> files[part] <= file;
            && accepted && done == Ok(good)
            && fs == (if good then (files - {part})[o.dest := file] else files - {part})
            && p.status == (if good then Done else Failed) && !p.isOpen
  {
    var part := PartPath(o.dest);
    var (p, fs, offset) := Prepare(o, files, resume);
    DestIsNotPart(o.dest);
    StreamAccepted(o, p, fs, file, o.chunkSize);
    var gs := WriteAll(o, p, fs, Chunks(file, offset, o.chunkSize)).1;
    var staged := fs[part] + file[offset..];
    assert gs[part] == staged;
    assert gs - {part} == files - {part};
    if Resumes(o, files, resume) {
      PrefixSplits(files[part], file);
    } else {
      assert staged == file;
    }
    if staged != file { assert Lower(digest(staged)) != Lower(digest(file)); }
  }

  lemma PrefixSplits(p: Bytes, file: Bytes)
    requires |p| <= |file|
    ensures p + file[|p|..] == file <==> p <= file
  {}

  /** With different chunk sizes the stream is accepted exactly when both
    * number the resume offset alike. */
  lemma ChunkSizesAgree(o: Offer, digest: Digest, files: Files, resume: bool, file: Bytes, chunkSize: nat)
    requires o.chunkSize > 0 && chunkSize > 0 && o.size == |file|
    ensures Transfer(o, digest, files, resume, file, chunkSize).2
       <==> (Resumes(o, files, resume) ==>
               var n := |files[PartPath(o.dest)]|; n / chunkSize == n / o.chunkSize)
  {
    var (p, fs, offset) := Prepare(o, files, resume);
    if offset / chunkSize == offset / o.chunkSize {
      StreamAccepted(o, p, fs, file, chunkSize);
    } else {
      ZeroDiv(chunkSize);
      ZeroDiv(o.chunkSize);
    }
    if !Resumes(o, files, resume) {
      ZeroDiv(chunkSize);
      ZeroDiv(o.chunkSize);
      StreamAccepted(o, p, fs, file, chunkSize);
    }
  }

  /** A sender that reads two bytes at a time is refused by a receiver that
    * counts in single bytes and resumes after the first. */
  lemma OtherSizeRefused(digest: Digest, dest: Path)
    ensures var o, part := Offer(2, digest([7, 7]), dest, 1), PartPath(dest);
            !Transfer(o, digest, map[part := [7]], true, [7, 7], 2).2
  {
    var o, part := Offer(2, digest([7, 7]), dest, 1), PartPath(dest);
    ChunkSizesAgree(o, digest, map[part := [7]], true, [7, 7], 2);
  }

  /** A receiver that was never prepared finishes an offer of size zero with
    * whatever file of the offered digest lies at its .part. */
  lemma UnpreparedFinish(digest: Digest, dest: Path, content: Bytes)
    ensures var s := After(Offer(0, digest(content), dest, 1), digest, map[PartPath(dest) := content], [Finishing]);
            !s.prepared && s.progress.status == Done && s.files == map[dest := content]
  {
    var o, files := Offer(0, digest(content), dest, 1), map[PartPath(dest) := content];
    assert [Finishing][..0] == [];
    assert After(o, digest, files, []) == State(Idle, files, false, [], []);
  }

  lemma ZeroDiv(n: nat)
    requires n > 0
    ensures 0 / n == 0
  {}
}
