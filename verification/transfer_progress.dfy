/** Transfers over connections that hold: what is on its way and what is
  * still to be sent always add up to what is still needed, so no transfer is
  * ever aborted, found corrupt or reported failed unless it was refused. */
module TransferProgress {
  import opened Wrappers
  import opened Bytes
  import opened Chunker
  import opened FileReceivers
  import opened TransferSessions
  import opened TransferSafety
  import opened TransferOnce

  const ChunkSize := 64 * 1024

  // ---- The messages a transfer consists of -------------------------------------------------------------

  function ChunkEnd(file: Bytes, offset: nat): (end: nat)
    requires offset <= |file|
    ensures offset <= end <= |file| && (offset < |file| ==> offset < end)
  {
    if offset + ChunkSize <= |file| then offset + ChunkSize else |file|
  }

  /** All chunks from an offset on, and the closing file_done. */
  function Needed(id: Id, file: Bytes, offset: nat, sequence: nat): (ms: seq<Fwd>)
    requires offset <= |file|
    ensures ms != []
    decreases |file| - offset
  {
    if offset == |file| then [DoneMsg(id)]
    else
      var end := ChunkEnd(file, offset);
      [DataMsg(id, sequence, offset, file[offset..end])] + Needed(id, file, end, sequence + 1)
  }

  /** They carry exactly the chunks read_chunks yields. */
  lemma {:induction false} NeededIsChunks(id: Id, file: Bytes, offset: nat, sequence: nat)
    requires offset <= |file|
    ensures var ps := ChunksFrom(file, offset, sequence, ChunkSize); var ms := Needed(id, file, offset, sequence);
            && |ms| == |ps| + 1 && ms[|ps|] == DoneMsg(id)
            && forall i :: 0 <= i < |ps| ==> ms[i] == DataMsg(id, ps[i].sequence, ps[i].offset, ps[i].data)
    decreases |file| - offset
  {
    if offset < |file| { NeededIsChunks(id, file, ChunkEnd(file, offset), sequence + 1); }
  }

  /** The chunks and file_done of one transfer that are on their way. */
  function Flight(channel: seq<Fwd>, id: Id): seq<Fwd> {
    if channel == [] then []
    else if !channel[0].OfferMsg? && channel[0].id == id then [channel[0]] + Flight(channel[1..], id)
    else Flight(channel[1..], id)
  }

  lemma {:induction false} FlightPush(channel: seq<Fwd>, m: Fwd, id: Id)
    ensures Flight(channel + [m], id) == Flight(channel, id) + (if !m.OfferMsg? && m.id == id then [m] else [])
  {
    if channel == [] {
      assert [m][1..] == [];
    } else {
      assert (channel + [m])[1..] == channel[1..] + [m];
      FlightPush(channel[1..], m, id);
    }
  }

  lemma {:induction false} FlightEmpty(channel: seq<Fwd>, id: Id)
    requires forall m :: m in channel && !m.OfferMsg? ==> m.id != id
    ensures Flight(channel, id) == []
  {
    if channel != [] {
      assert channel[0] in channel;
      assert forall m :: m in channel[1..] ==> m in channel;
      FlightEmpty(channel[1..], id);
    }
  }

  lemma FlightPair(a: Fwd, b: Fwd, rest: seq<Fwd>, id: Id)
    requires a.id != b.id
    ensures Flight([a, b] + rest, id) == Flight([b, a] + rest, id)
  {
    assert ([a, b] + rest)[1..] == [b] + rest && ([b, a] + rest)[1..] == [a] + rest;
    assert ([b] + rest)[1..] == rest && ([a] + rest)[1..] == rest;
  }

  /** Messages of different transfers may change places. */
  lemma {:induction false} FlightExchanged(channel: seq<Fwd>, p: nat, id: Id)
    requires p + 1 < |channel| && channel[p].id != channel[p + 1].id
    ensures Flight(Exchanged(channel, p), id) == Flight(channel, id)
  {
    if p == 0 {
      var a, b, rest := channel[0], channel[1], channel[2..];
      assert channel == [a, b] + rest && Exchanged(channel, p) == [b, a] + rest;
      FlightPair(a, b, rest, id);
    } else {
      FlightExchanged(channel[1..], p - 1, id);
      assert Exchanged(channel, p)[1..] == Exchanged(channel[1..], p - 1);
    }
  }

  /** What a task has still to send. */
  function Unsent(file: Bytes, t: Task): seq<Fwd>
    requires t.offset <= |file|
  {
    if t.phase == Streaming then Needed(t.id, file, t.offset, t.sequence) else []
  }

  // ---- A connection that holds, files that stay ------------------------------------------------------------

  predicate Live(x: Rx) { x.Asked? || x.Incoming? || x.Finishing? }

  /** No connection loses anything, no task gives up, and the file on disk is the
    * one that was offered. */
  ghost predicate Steady(l: Link, step: Step) {
    match step
    case Offer(_, _, _, ok) => ok
    case ReceiveOffer(_, _, _, ok) => ok
    case Decide(_, _, ok) => ok
    case TaskSends(i, data, ok) =>
      ok && i < |l.s.tasks| && l.s.tasks[i].id in l.s.tx
      && var t := l.s.tasks[i]; var file := l.s.tx[t.id].file;
         t.offset < |file| && data == file[t.offset..ChunkEnd(file, t.offset)]
    case TaskDone(i, ok) =>
      ok && i < |l.s.tasks| && l.s.tasks[i].id in l.s.tx && l.s.tasks[i].offset == |l.s.tx[l.s.tasks[i].id].file|
    case ReceiveData(ok) => ok
    case ReceiveDone(ok) => ok
    case TaskGivesUp(_) => false
    case Break(_, _) => false
    case _ => true
  }

  /** No live transfer has dest's .part for its destination, and none that still
    * waits for the user's decision has dest for its destination or its .part. */
  ghost predicate ApartFromLive(r: Receiver, dest: Path) {
    forall id :: id in r.rx && Live(r.rx[id]) ==>
      && PartPath(dest) != r.rx[id].dest
      && (r.rx[id].Asked? ==> dest != r.rx[id].dest && dest != PartPath(r.rx[id].dest))
  }

  /** For a path the name search may give, that is exactly separateness from
    * every live transfer: the others' .part files exist. */
  lemma ApartIsSeparate(r: Receiver, dest: Path)
    requires dest !in r.names && PartPath(dest) !in r.names
    requires forall id :: id in r.rx && HasNode(r.rx[id]) ==> PartPath(r.rx[id].dest) in r.names
    ensures ApartFromLive(r, dest) <==> forall id :: id in r.rx && Live(r.rx[id]) ==> Separate(dest, r.rx[id].dest)
  {
    forall id | id in r.rx && Live(r.rx[id]) && dest != r.rx[id].dest
      ensures PartPath(dest) != PartPath(r.rx[id].dest)
    {
      PartsDiffer(dest, r.rx[id].dest);
    }
  }

  /** Over a single connection only a name that is another's .part matters: an
    * offer is read only when no other waits for the user. */
  lemma OneConnectionApart(l: Link, step: Step)
    requires Enabled(l, step) && step.ReceiveOffer? && forall i, j :: l.via(i) == l.via(j)
    ensures ApartFromLive(l.r, step.dest)
       <==> forall id :: IsIncoming(l.r, id) ==> PartPath(step.dest) != l.r.rx[id].dest
  {
    forall id | id in l.r.rx ensures !l.r.rx[id].Asked? && !l.r.rx[id].Finishing? {
      assert l.via(id) == l.via(l.fwd[0].id);
    }
  }

  ghost predicate Orderly(l: Link, step: Step) {
    Steady(l, step) && (step.ReceiveOffer? && !step.refuse ==> ApartFromLive(l.r, step.dest))
  }

  // ---- The invariant -----------------------------------------------------------------------------------------

  ghost predicate TasksOk(l: Link) {
    && (forall i :: 0 <= i < |l.s.tasks| ==>
          var t := l.s.tasks[i];
          t.id in l.s.tx && t.offset <= |l.s.tx[t.id].file| && Answered(l, t.id) && !l.r.rx[t.id].Refused?)
    && (forall m :: m in l.fwd && !m.OfferMsg? ==> Answered(l, m.id))
    && (forall m :: m in l.back && m.AcceptMsg? ==> Answered(l, m.id) && !l.r.rx[m.id].Refused?)
    && (forall m :: m in l.back && m.RejectMsg? ==> m.id in l.r.rx && l.r.rx[m.id].Refused?)
  }

  /** Conservation: on its way plus unsent is needed. */
  ghost predicate Conserved(l: Link, id: Id)
    requires IsIncoming(l.r, id) && id in l.s.tx && TasksOk(l)
  {
    var x, file := l.r.rx[id], l.s.tx[id].file;
    && x.bytesReceived <= |file|
    && (forall i :: 0 <= i < |l.s.tasks| && l.s.tasks[i].id == id ==>
          Flight(l.fwd, id) + Unsent(file, l.s.tasks[i]) == Needed(id, file, x.bytesReceived, x.expectedIndex))
    && ((forall i :: 0 <= i < |l.s.tasks| ==> l.s.tasks[i].id != id) ==>
          Flight(l.fwd, id) == [] && x.bytesReceived == 0 && x.expectedIndex == 0)
  }

  /** The receiver's file holds the part of the source received so far. */
  ghost predicate Staged(r: Receiver, x: Rx, file: Bytes) {
    && (x.Incoming? ==> x.bytesReceived <= |file| && x.node < |r.nodes| && r.nodes[x.node] == file[..x.bytesReceived])
    && (x.Finishing? ==> x.success && x.node < |r.nodes| && r.nodes[x.node] == file)
    && (HasNode(x) ==> PartPath(x.dest) in r.names && r.names[PartPath(x.dest)] == x.node)
    && (x.Stored? ==> x.dest in r.names && r.names[x.dest] == x.node && x.node < |r.nodes| && r.nodes[x.node] == file)
  }

  predicate HasNode(x: Rx) { x.Incoming? || x.Finishing? }

  ghost predicate PathsApart(r: Receiver) {
    && (forall i, j :: i in r.rx && j in r.rx && i != j && Live(r.rx[i]) && Live(r.rx[j]) ==>
      Separate(r.rx[i].dest, r.rx[j].dest))
    && (forall i, j :: i in r.rx && j in r.rx && i != j && HasNode(r.rx[i]) && HasNode(r.rx[j]) ==>
      r.rx[i].node != r.rx[j].node)
  }

  /** No live transfer can touch a file that was delivered. */
  ghost predicate StoredApart(r: Receiver) {
    forall i, j :: i in r.rx && j in r.rx && r.rx[i].Stored? && Live(r.rx[j]) ==>
      && r.rx[i].dest != r.rx[j].dest && r.rx[i].dest != PartPath(r.rx[j].dest)
      && (HasNode(r.rx[j]) ==> r.rx[i].node != r.rx[j].node)
  }

  ghost predicate NoFailure(l: Link) {
    && (forall m :: m in l.back && m.AckMsg? ==> m.success)
    && (forall id :: id in l.r.rx ==> !l.r.rx[id].Crashed?)
    && (forall p :: p in l.r.resolved ==> p.1)
    && (forall id :: id in l.s.tx && l.s.tx[id].ackSet ==> l.s.tx[id].ackSuccess)
    && (forall p :: p in l.s.reports && !p.1 ==> p.0 in l.r.rx && l.r.rx[p.0].Refused?)
  }

  ghost predicate Good(digest: Digest, l: Link) {
    && Verified(digest, l) && Once(l) && TasksOk(l) && PathsApart(l.r) && StoredApart(l.r) && NoFailure(l)
    && (forall id :: id in l.r.rx ==> Staged(l.r, l.r.rx[id], l.s.tx[id].file))
    && (forall id :: IsIncoming(l.r, id) ==> Conserved(l, id))
  }

  // ---- What arrives is what is needed next ------------------------------------------------------------------

  lemma HeadIsNeeded(digest: Digest, l: Link)
    requires Good(digest, l) && l.fwd != [] && !l.fwd[0].OfferMsg? && IsIncoming(l.r, l.fwd[0].id)
    ensures var id := l.fwd[0].id; var x := l.r.rx[id];
            id in l.s.tx && x.bytesReceived <= |l.s.tx[id].file|
            && l.fwd[0] == Needed(id, l.s.tx[id].file, x.bytesReceived, x.expectedIndex)[0]
  {}

  /** A chunk that arrives for an incoming transfer is the one awaited. */
  lemma ChunkIsNext(digest: Digest, l: Link)
    requires Good(digest, l) && l.fwd != [] && l.fwd[0].DataMsg? && IsIncoming(l.r, l.fwd[0].id)
    ensures var id := l.fwd[0].id; var x := l.r.rx[id];
            && id in l.s.tx && x.bytesReceived < |l.s.tx[id].file|
            && l.fwd[0] == DataMsg(id, x.expectedIndex, x.bytesReceived,
                                   l.s.tx[id].file[x.bytesReceived..ChunkEnd(l.s.tx[id].file, x.bytesReceived)])
            && ChunkFits(x, l.fwd[0])
  {
    HeadIsNeeded(digest, l);
    assert RxMatches(digest, l, l.fwd[0].id);
  }

  /** When file_done arrives every byte is there, and verification succeeds. */
  lemma DoneIsComplete(digest: Digest, l: Link)
    requires Good(digest, l) && l.fwd != [] && l.fwd[0].DoneMsg? && IsIncoming(l.r, l.fwd[0].id)
    ensures var id := l.fwd[0].id; var x := l.r.rx[id];
            && id in l.s.tx && x.bytesReceived == |l.s.tx[id].file|
            && StagedAt(l.r, x.dest) == Some(l.s.tx[id].file)
            && HandleDone(digest, l.r, id).1 == [AckMsg(id, true)]
            && HandleDone(digest, l.r, id).0.rx == l.r.rx[id := Finishing(x.dest, x.node, true)]
  {
    var id := l.fwd[0].id;
    HeadIsNeeded(digest, l);
    assert RxMatches(digest, l, id);
    var file := l.s.tx[id].file;
    assert Staged(l.r, l.r.rx[id], file);
    assert file[..|file|] == file;
  }

  // ---- Each part of the invariant is kept ----------------------------------------------------------------------

  ghost predicate Proceeds(digest: Digest, l: Link, step: Step) {
    CollisionFree(digest) && Good(digest, l) && Enabled(l, step) && Orderly(l, step)
  }

  lemma IgnoredEffect(digest: Digest, l: Link, step: Step)
    requires Enabled(l, step) && (step.ReceiveData? || step.ReceiveDone?) && !IsIncoming(l.r, l.fwd[0].id)
    ensures Next(digest, l, step) == l.(fwd := l.fwd[1..])
  {}

  lemma ChunkWrites(r: Receiver, m: Fwd, file: Bytes)
    requires m.DataMsg? && IsIncoming(r, m.id) && ChunkFits(r.rx[m.id], m)
    requires var x := r.rx[m.id];
             && x.bytesReceived <= |file| && x.node < |r.nodes| && r.nodes[x.node] == file[..x.bytesReceived]
             && m.data == file[x.bytesReceived..ChunkEnd(file, x.bytesReceived)]
    ensures var x := r.rx[m.id]; var end := ChunkEnd(file, x.bytesReceived);
            HandleChunk(r, m) == (r.(rx := r.rx[m.id := x.(bytesReceived := end, expectedIndex := x.expectedIndex + 1)],
                                     nodes := r.nodes[x.node := file[..end]]), [])
  {
    var x := r.rx[m.id];
    var end := ChunkEnd(file, x.bytesReceived);
    assert file[..x.bytesReceived] + file[x.bytesReceived..end] == file[..end];
  }

  lemma ChunkEffect(digest: Digest, l: Link, step: Step)
    requires Proceeds(digest, l, step) && step.ReceiveData? && IsIncoming(l.r, l.fwd[0].id)
    ensures var id := l.fwd[0].id; var x := l.r.rx[id];
            && id in l.s.tx && x.bytesReceived < |l.s.tx[id].file| && x.node < |l.r.nodes|
            && var file := l.s.tx[id].file; var end := ChunkEnd(file, x.bytesReceived);
               Next(digest, l, step) == l.(fwd := l.fwd[1..],
                 r := l.r.(rx := l.r.rx[id := x.(bytesReceived := end, expectedIndex := x.expectedIndex + 1)],
                           nodes := l.r.nodes[x.node := file[..end]]))
  {
    ChunkIsNext(digest, l);
    var id := l.fwd[0].id;
    assert Staged(l.r, l.r.rx[id], l.s.tx[id].file);
    ChunkWrites(l.r, l.fwd[0], l.s.tx[id].file);
    assert l.back + [] == l.back;
  }

  lemma DoneEffect(digest: Digest, l: Link, step: Step)
    requires Proceeds(digest, l, step) && step.ReceiveDone? && IsIncoming(l.r, l.fwd[0].id)
    ensures var id, k := l.fwd[0].id, Next(digest, l, step);
            && k.fwd == l.fwd[1..] && k.s == l.s && k.back == l.back + [AckMsg(id, true)]
            && k.r.rx == l.r.rx[id := Finishing(l.r.rx[id].dest, l.r.rx[id].node, true)]
            && k.r.names == l.r.names && k.r.nodes == l.r.nodes && k.r.resolved == l.r.resolved
  {
    DoneIsComplete(digest, l);
  }

  /** The receiver's view of a delivered chunk or file_done. */
  ghost predicate Delivered(l: Link, k: Link) {
    && l.fwd != [] && !l.fwd[0].OfferMsg? && k.fwd == l.fwd[1..] && k.s == l.s
    && k.r.names == l.r.names && k.r.resolved == l.r.resolved
    && var id := l.fwd[0].id;
       if !IsIncoming(l.r, id) then k.r == l.r && k.back == l.back
       else if l.fwd[0].DataMsg? then
         var x := l.r.rx[id];
         && id in l.s.tx && x.bytesReceived < |l.s.tx[id].file| && x.node < |l.r.nodes| && k.back == l.back
         && var file := l.s.tx[id].file; var end := ChunkEnd(file, x.bytesReceived);
            && k.r.rx == l.r.rx[id := x.(bytesReceived := end, expectedIndex := x.expectedIndex + 1)]
            && k.r.nodes == l.r.nodes[x.node := file[..end]]
       else
         && k.back == l.back + [AckMsg(id, true)]
         && k.r.rx == l.r.rx[id := Finishing(l.r.rx[id].dest, l.r.rx[id].node, true)]
         && k.r.nodes == l.r.nodes
  }

  lemma DeliveryEffect(digest: Digest, l: Link, step: Step)
    requires Proceeds(digest, l, step) && (step.ReceiveData? || step.ReceiveDone?)
    ensures Delivered(l, Next(digest, l, step))
  {
    if !IsIncoming(l.r, l.fwd[0].id) {
      IgnoredEffect(digest, l, step);
    } else if step.ReceiveData? {
      ChunkEffect(digest, l, step);
    } else {
      DoneEffect(digest, l, step);
    }
  }

  /** Answered transfers stay answered, and refused exactly if they were. */
  ghost predicate AnswersKept(l: Link, k: Link) {
    forall id :: Answered(l, id) ==> Answered(k, id) && (l.r.rx[id].Refused? <==> k.r.rx[id].Refused?)
  }

  lemma OtherKeepsAnswers(digest: Digest, l: Link, step: Step)
    requires OffersOnce(l) && Enabled(l, step) && !step.ReceiveData? && !step.ReceiveDone?
    ensures AnswersKept(l, Next(digest, l, step))
  {}

  lemma TasksFrame(l: Link, k: Link)
    requires TasksOk(l) && AnswersKept(l, k)
    requires forall id :: id in l.s.tx ==> id in k.s.tx && k.s.tx[id].file == l.s.tx[id].file
    requires forall i :: 0 <= i < |k.s.tasks| ==>
      var t := k.s.tasks[i];
      || (i < |l.s.tasks| && t.id == l.s.tasks[i].id && t.offset <= |k.s.tx[t.id].file|)
      || (t.id in k.s.tx && t.offset <= |k.s.tx[t.id].file| && Answered(k, t.id) && !k.r.rx[t.id].Refused?)
    requires forall m :: m in k.fwd && !m.OfferMsg? ==> m in l.fwd || Answered(k, m.id)
    requires forall m :: m in k.back && m.AcceptMsg? ==> m in l.back || (Answered(k, m.id) && !k.r.rx[m.id].Refused?)
    requires forall m :: m in k.back && m.RejectMsg? ==> m in l.back || (m.id in k.r.rx && k.r.rx[m.id].Refused?)
    ensures TasksOk(k)
  {}

  lemma SenderTasksStep(digest: Digest, l: Link, step: Step)
    requires TasksOk(l) && OffersOnce(l) && Enabled(l, step) && Orderly(l, step)
      && (step.Offer? || step.List? || step.TaskGetsAck?)
    ensures TasksOk(Next(digest, l, step))
  {
    OtherKeepsAnswers(digest, l, step);
    if step.Offer? { Membership(l.fwd, [OfferMsg(step.id, step.filename, |step.file|, digest(step.file))], true); }
    TasksFrame(l, Next(digest, l, step));
  }

  lemma ReplyTasksStep(digest: Digest, l: Link, step: Step)
    requires TasksOk(l) && OffersOnce(l) && Enabled(l, step) && Orderly(l, step)
      && (step.ReceiveAck? || step.ReceiveAnswer?)
    ensures TasksOk(Next(digest, l, step))
  {
    OtherKeepsAnswers(digest, l, step);
    Membership(l.back, [], true);
    assert l.back[0] in l.back;
    TasksFrame(l, Next(digest, l, step));
  }

  lemma StreamTasksStep(digest: Digest, l: Link, step: Step)
    requires TasksOk(l) && OffersOnce(l) && Enabled(l, step) && Orderly(l, step) && (step.TaskSends? || step.TaskDone?)
    ensures TasksOk(Next(digest, l, step))
  {
    var t := l.s.tasks[step.i];
    OtherKeepsAnswers(digest, l, step);
    Membership(l.fwd, [if step.TaskSends? then DataMsg(t.id, t.sequence, t.offset, step.data) else DoneMsg(t.id)],
      true);
    TasksFrame(l, Next(digest, l, step));
  }

  lemma AnswerTasksStep(digest: Digest, l: Link, step: Step)
    requires TasksOk(l) && OffersOnce(l) && Enabled(l, step) && Orderly(l, step)
      && (step.ReceiveOffer? || step.Decide? || step.Rename?)
    ensures TasksOk(Next(digest, l, step))
  {
    OtherKeepsAnswers(digest, l, step);
    Membership(l.fwd, [], true);
    if step.ReceiveOffer? {
      Membership(l.back, [RejectMsg(l.fwd[0].id)], true);
    } else if step.Decide? {
      Membership(l.back, [if step.accept then AcceptMsg(step.id) else RejectMsg(step.id)], true);
    }
    TasksFrame(l, Next(digest, l, step));
  }

  lemma DeliveryTasksStep(l: Link, k: Link)
    requires TasksOk(l) && Delivered(l, k)
    ensures TasksOk(k)
  {}

  /** Replacing one entry keeps the paths apart if the new entry keeps the old
    * one's path and node or takes unused ones. */
  lemma PathsFrame(r: Receiver, q: Receiver, id: Id, x: Rx)
    requires PathsApart(r) && q.rx == r.rx[id := x]
    requires Live(x) ==>
      || (id in r.rx && Live(r.rx[id]) && x.dest == r.rx[id].dest)
      || (forall j :: j in r.rx && Live(r.rx[j]) ==> Separate(x.dest, r.rx[j].dest))
    requires HasNode(x) ==>
      || (id in r.rx && HasNode(r.rx[id]) && x.node == r.rx[id].node)
      || (forall j :: j in r.rx && HasNode(r.rx[j]) ==> x.node != r.rx[j].node)
    ensures PathsApart(q)
  {}

  lemma OfferPathsStep(digest: Digest, l: Link, step: Step)
    requires PathsApart(l.r) && AllStaged(l) && Enabled(l, step) && Orderly(l, step)
      && (step.ReceiveOffer? || step.Decide? || step.Rename?)
    ensures PathsApart(Next(digest, l, step).r)
  {
    var id := if step.ReceiveOffer? then l.fwd[0].id else step.id;
    forall j | j in l.r.rx && HasNode(l.r.rx[j])
      ensures l.r.rx[j].node < |l.r.nodes| && PartPath(l.r.rx[j].dest) in l.r.names
    {
      assert Staged(l.r, l.r.rx[j], l.s.tx[j].file);
    }
    if step.ReceiveOffer? && !step.refuse { ApartIsSeparate(l.r, step.dest); }
    PathsFrame(l.r, Next(digest, l, step).r, id, Next(digest, l, step).r.rx[id]);
  }

  lemma DeliveryPathsStep(l: Link, k: Link)
    requires PathsApart(l.r) && Delivered(l, k)
    ensures PathsApart(k.r)
  {
    var id := l.fwd[0].id;
    if IsIncoming(l.r, id) { PathsFrame(l.r, k.r, id, k.r.rx[id]); }
  }

  lemma StoredFrame(r: Receiver, q: Receiver, id: Id, x: Rx)
    requires StoredApart(r) && q.rx == r.rx[id := x]
    requires Live(x) ==> forall i :: i in r.rx && r.rx[i].Stored? ==>
      r.rx[i].dest != x.dest && r.rx[i].dest != PartPath(x.dest) && (HasNode(x) ==> r.rx[i].node != x.node)
    requires x.Stored? ==> forall j :: j in r.rx && j != id && Live(r.rx[j]) ==>
      && x.dest != r.rx[j].dest && x.dest != PartPath(r.rx[j].dest)
      && (HasNode(r.rx[j]) ==> x.node != r.rx[j].node)
    ensures StoredApart(q)
  {}

  lemma OfferStoredStep(digest: Digest, l: Link, step: Step)
    requires PathsApart(l.r) && StoredApart(l.r) && AllStaged(l) && Enabled(l, step)
    requires step.ReceiveOffer? || step.Decide? || step.Rename?
    ensures StoredApart(Next(digest, l, step).r)
  {
    var id, q := if step.ReceiveOffer? then l.fwd[0].id else step.id, Next(digest, l, step).r;
    forall i | i in l.r.rx && l.r.rx[i].Stored? ensures l.r.rx[i].dest in l.r.names && l.r.rx[i].node < |l.r.nodes| {
      assert Staged(l.r, l.r.rx[i], l.s.tx[i].file);
    }
    if step.Rename? { assert Staged(l.r, l.r.rx[id], l.s.tx[id].file); }
    StoredFrame(l.r, q, id, q.rx[id]);
  }

  lemma DeliveryStoredStep(l: Link, k: Link)
    requires StoredApart(l.r) && Delivered(l, k)
    ensures StoredApart(k.r)
  {}

  // ---- No failure -------------------------------------------------------------------------------------------------

  lemma SenderNoFailure(digest: Digest, l: Link, step: Step)
    requires NoFailure(l) && Enabled(l, step) && Orderly(l, step)
    requires step.Offer? || step.List? || step.TaskSends? || step.TaskDone? || step.TaskGetsAck?
    ensures NoFailure(Next(digest, l, step))
  {}

  lemma ReplyNoFailure(digest: Digest, l: Link, step: Step)
    requires NoFailure(l) && TasksOk(l) && Enabled(l, step) && (step.ReceiveAck? || step.ReceiveAnswer?)
    ensures NoFailure(Next(digest, l, step))
  {
    var k := Next(digest, l, step);
    Membership(l.back, [], true);
    assert l.back[0] in l.back && k.r == l.r;
    assert forall p :: p in k.s.reports ==> p in l.s.reports || p == k.s.reports[|k.s.reports| - 1];
  }

  lemma ReceiverNoFailure(digest: Digest, l: Link, step: Step)
    requires NoFailure(l) && OffersOnce(l) && AllStaged(l) && Enabled(l, step) && Orderly(l, step)
      && (step.ReceiveOffer? || step.Decide? || step.Rename?)
    ensures NoFailure(Next(digest, l, step))
  {
    var k := Next(digest, l, step);
    OtherKeepsAnswers(digest, l, step);
    if step.ReceiveOffer? {
      Membership(l.back, [RejectMsg(l.fwd[0].id)], true);
    } else if step.Decide? {
      Membership(l.back, [if step.accept then AcceptMsg(step.id) else RejectMsg(step.id)], true);
    } else {
      assert Staged(l.r, l.r.rx[step.id], l.s.tx[step.id].file);
    }
    assert forall p :: p in k.r.resolved ==> p in l.r.resolved || p == k.r.resolved[|k.r.resolved| - 1];
    ReportsRefused(l, k);
  }

  lemma DeliveryNoFailure(l: Link, k: Link)
    requires NoFailure(l) && Delivered(l, k)
    ensures NoFailure(k)
  {}

  lemma ReportsRefused(l: Link, k: Link)
    requires NoFailure(l) && AnswersKept(l, k) && k.s.reports == l.s.reports
    ensures forall p :: p in k.s.reports && !p.1 ==> p.0 in k.r.rx && k.r.rx[p.0].Refused?
  {}

  // ---- Staged bytes ---------------------------------------------------------------------------------------

  ghost predicate AllStaged(l: Link) {
    forall id :: id in l.r.rx ==> id in l.s.tx && Staged(l.r, l.r.rx[id], l.s.tx[id].file)
  }

  lemma SameReceiverStaged(l: Link, k: Link)
    requires AllStaged(l) && k.r == l.r
    requires forall id :: id in l.s.tx ==> id in k.s.tx && k.s.tx[id].file == l.s.tx[id].file
    ensures AllStaged(k)
  {}

  lemma SenderStaged(digest: Digest, l: Link, step: Step)
    requires AllStaged(l) && Enabled(l, step)
    requires !step.ReceiveOffer? && !step.Decide? && !step.ReceiveData? && !step.ReceiveDone? && !step.Rename?
    ensures AllStaged(Next(digest, l, step))
  {
    SameReceiverStaged(l, Next(digest, l, step));
  }

  lemma OfferStaged(digest: Digest, l: Link, step: Step)
    requires AllStaged(l) && OffersOnce(l) && Enabled(l, step) && (step.ReceiveOffer? || (step.Decide? && !step.accept))
    ensures AllStaged(Next(digest, l, step))
  {}

  lemma AcceptStaged(digest: Digest, l: Link, step: Step)
    requires AllStaged(l) && PathsApart(l.r) && StoredApart(l.r) && Enabled(l, step) && step.Decide? && step.accept
    ensures AllStaged(Next(digest, l, step))
  {
    var k := Next(digest, l, step);
    forall id | id in k.r.rx ensures Staged(k.r, k.r.rx[id], k.s.tx[id].file) {
      if id == step.id {
        assert k.s.tx[id].file[..0] == [];
      } else {
        assert Staged(l.r, l.r.rx[id], l.s.tx[id].file);
        if Live(l.r.rx[id]) { PartsDiffer(l.r.rx[id].dest, l.r.rx[step.id].dest); }
      }
    }
  }

  lemma DeliveryStaged(l: Link, k: Link)
    requires AllStaged(l) && PathsApart(l.r) && StoredApart(l.r) && Delivered(l, k)
    requires l.fwd[0].DoneMsg? && IsIncoming(l.r, l.fwd[0].id) ==>
      l.r.rx[l.fwd[0].id].bytesReceived == |l.s.tx[l.fwd[0].id].file|
    ensures AllStaged(k)
  {}

  lemma RenameStaged(digest: Digest, l: Link, step: Step)
    requires AllStaged(l) && PathsApart(l.r) && StoredApart(l.r) && Enabled(l, step) && step.Rename?
    ensures AllStaged(Next(digest, l, step))
  {
    var k := Next(digest, l, step);
    forall id | id in k.r.rx ensures Staged(k.r, k.r.rx[id], k.s.tx[id].file) {
      assert Staged(l.r, l.r.rx[id], l.s.tx[id].file);
      if id != step.id && Live(l.r.rx[id]) { PartsDiffer(l.r.rx[id].dest, l.r.rx[step.id].dest); }
    }
  }

  // ---- Conservation ---------------------------------------------------------------------------------------

  ghost predicate AllConserved(l: Link)
    requires TasksOk(l)
  {
    forall id :: IsIncoming(l.r, id) ==> id in l.s.tx && Conserved(l, id)
  }

  /** Nothing that concerns id has changed. */
  lemma SameConserved(l: Link, k: Link, id: Id)
    requires TasksOk(l) && TasksOk(k) && IsIncoming(l.r, id) && IsIncoming(k.r, id) && id in l.s.tx && id in k.s.tx
    requires Conserved(l, id) && k.r.rx[id] == l.r.rx[id] && k.s.tx[id].file == l.s.tx[id].file
    requires Flight(k.fwd, id) == Flight(l.fwd, id) && |k.s.tasks| == |l.s.tasks|
    requires forall i :: 0 <= i < |k.s.tasks| ==>
      var t, u := l.s.tasks[i], k.s.tasks[i];
      u.id == t.id && (u == t || (t.phase != Streaming && u.phase != Streaming) || t.id != id)
    ensures Conserved(k, id)
  {}

  lemma OfferedConserved(digest: Digest, l: Link, step: Step)
    requires TasksOk(l) && AllConserved(l) && Enabled(l, step) && TasksOk(Next(digest, l, step)) && step.Offer?
    ensures AllConserved(Next(digest, l, step))
  {
    var k, m := Next(digest, l, step), OfferMsg(step.id, step.filename, |step.file|, digest(step.file));
    forall id | IsIncoming(k.r, id) ensures id in k.s.tx && Conserved(k, id) {
      if step.ok { FlightPush(l.fwd, m, id); }
      SameConserved(l, k, id);
    }
  }

  lemma QuietConserved(digest: Digest, l: Link, step: Step)
    requires TasksOk(l) && AllConserved(l) && Enabled(l, step) && TasksOk(Next(digest, l, step))
    requires step.List? || step.ReceiveAck? || step.TaskGetsAck?
    ensures AllConserved(Next(digest, l, step))
  {
    var k := Next(digest, l, step);
    forall id | IsIncoming(k.r, id) ensures id in k.s.tx && Conserved(k, id) {
      SameConserved(l, k, id);
    }
  }

  lemma SettledConserved(digest: Digest, l: Link, step: Step)
    requires TasksOk(l) && AllConserved(l) && Enabled(l, step) && TasksOk(Next(digest, l, step))
    requires step.Rename? || step.ReceiveOffer? || (step.Decide? && !step.accept)
    ensures AllConserved(Next(digest, l, step))
  {
    var k := Next(digest, l, step);
    assert k.s == l.s;
    forall id | IsIncoming(k.r, id) ensures id in k.s.tx && Conserved(k, id) {
      SameConserved(l, k, id);
    }
  }

  /** The accepted answer starts a task that has everything still to send. */
  lemma StartConserved(digest: Digest, l: Link, step: Step)
    requires TasksOk(l) && AllConserved(l) && Enabled(l, step) && step.ReceiveAnswer? && TasksOk(Next(digest, l, step))
    requires Unused(l, l.back[0].id)
    ensures AllConserved(Next(digest, l, step))
  {
    var k := Next(digest, l, step);
    forall id | IsIncoming(k.r, id) ensures id in k.s.tx && Conserved(k, id) {
      assert Conserved(l, id);
      if |k.s.tasks| == |l.s.tasks| {
        SameConserved(l, k, id);
      } else {
        StartedConserved(l, k, id);
      }
    }
  }

  lemma StartedConserved(l: Link, k: Link, id: Id)
    requires TasksOk(l) && TasksOk(k) && IsIncoming(l.r, id) && k.r == l.r && k.fwd == l.fwd && id in l.s.tx
      && id in k.s.tx
    requires Conserved(l, id) && k.s.tx[id].file == l.s.tx[id].file
    requires |k.s.tasks| == |l.s.tasks| + 1 && k.s.tasks[..|l.s.tasks|] == l.s.tasks
    requires var t := k.s.tasks[|l.s.tasks|];
             t == Task(t.id, 0, 0, Streaming) && forall i :: 0 <= i < |l.s.tasks| ==> l.s.tasks[i].id != t.id
    ensures Conserved(k, id)
  {
    var n, file := |l.s.tasks|, l.s.tx[id].file;
    assert forall i :: 0 <= i < n ==> k.s.tasks[i] == k.s.tasks[..n][i];
    if k.s.tasks[n].id == id {
      assert [] + Unsent(file, k.s.tasks[n]) == Unsent(file, k.s.tasks[n]);
    }
  }

  /** A message moves from unsent to on its way. */
  lemma StreamConserved(digest: Digest, l: Link, step: Step)
    requires TasksOk(l) && AllConserved(l) && Enabled(l, step) && Orderly(l, step) && TasksOk(Next(digest, l, step))
    requires step.TaskSends? || step.TaskDone?
    requires TasksOnce(l)
    ensures AllConserved(Next(digest, l, step))
  {
    var k, t := Next(digest, l, step), l.s.tasks[step.i];
    var file := l.s.tx[t.id].file;
    var m := if step.TaskSends? then DataMsg(t.id, t.sequence, t.offset, step.data) else DoneMsg(t.id);
    assert Unsent(file, t) == [m] + Unsent(file, k.s.tasks[step.i]);
    forall id | IsIncoming(k.r, id) ensures id in k.s.tx && Conserved(k, id) {
      FlightPush(l.fwd, m, id);
      if id == t.id {
        SentConserved(l, k, step.i, m);
      } else {
        SameConserved(l, k, id);
      }
    }
  }

  lemma SentConserved(l: Link, k: Link, j: nat, m: Fwd)
    requires TasksOk(l) && TasksOk(k) && j < |l.s.tasks| && k.r == l.r
    requires var id := l.s.tasks[j].id;
             && IsIncoming(l.r, id) && Conserved(l, id) && k.s.tx == l.s.tx
             && |k.s.tasks| == |l.s.tasks| && k.s.tasks == l.s.tasks[j := k.s.tasks[j]] && k.s.tasks[j].id == id
             && Flight(k.fwd, id) == Flight(l.fwd, id) + [m]
             && Unsent(l.s.tx[id].file, l.s.tasks[j]) == [m] + Unsent(l.s.tx[id].file, k.s.tasks[j])
    requires forall i :: 0 <= i < |l.s.tasks| && i != j ==> l.s.tasks[i].id != l.s.tasks[j].id
    ensures Conserved(k, l.s.tasks[j].id)
  {
    var id := l.s.tasks[j].id;
    var rest := Unsent(l.s.tx[id].file, k.s.tasks[j]);
    MovedAcross(Flight(l.fwd, id), m, rest);
  }

  ghost predicate RxListed(l: Link) { forall id :: id in l.r.rx ==> id in l.s.tx }

  lemma AcceptConserved(digest: Digest, l: Link, step: Step)
    requires TasksOk(l) && AllConserved(l) && RxListed(l) && Enabled(l, step) && TasksOk(Next(digest, l, step))
      && step.Decide? && step.accept
    ensures AllConserved(Next(digest, l, step))
  {
    var k := Next(digest, l, step);
    forall id | IsIncoming(k.r, id) ensures id in k.s.tx && Conserved(k, id) {
      if id == step.id {
        assert !Answered(l, id);
        FlightEmpty(l.fwd, id);
      } else {
        assert Conserved(l, id);
      }
    }
  }

  /** A delivered chunk leaves the way, and is needed no longer. */
  lemma DeliveryConserved(l: Link, k: Link)
    requires TasksOk(l) && TasksOk(k) && AllConserved(l) && Delivered(l, k)
    ensures AllConserved(k)
  {
    forall id | IsIncoming(k.r, id) ensures id in k.s.tx && Conserved(k, id) {
      if id == l.fwd[0].id {
        DeliveredConserved(l, k, id);
      } else {
        SameConserved(l, k, id);
      }
    }
  }

  lemma DeliveredConserved(l: Link, k: Link, id: Id)
    requires IsIncoming(l.r, id) && IsIncoming(k.r, id) && id in l.s.tx && TasksOk(l) && TasksOk(k) && Conserved(l, id)
    requires k.s == l.s && l.fwd != [] && k.fwd == l.fwd[1..] && l.fwd[0].DataMsg? && l.fwd[0].id == id
    requires l.r.rx[id].bytesReceived < |l.s.tx[id].file|
    requires k.r.rx[id] == l.r.rx[id].(bytesReceived := ChunkEnd(l.s.tx[id].file, l.r.rx[id].bytesReceived),
                                       expectedIndex := l.r.rx[id].expectedIndex + 1)
    ensures Conserved(k, id)
  {
    var file, x, y := l.s.tx[id].file, l.r.rx[id], k.r.rx[id];
    var needed := Needed(id, file, x.bytesReceived, x.expectedIndex);
    assert needed[1..] == Needed(id, file, y.bytesReceived, y.expectedIndex);
    assert Flight(l.fwd, id) == [l.fwd[0]] + Flight(k.fwd, id);
    forall i | 0 <= i < |k.s.tasks| && k.s.tasks[i].id == id
      ensures Flight(k.fwd, id) + Unsent(file, k.s.tasks[i]) == needed[1..]
    {
      WithoutFirst(l.fwd[0], Flight(k.fwd, id), Unsent(file, k.s.tasks[i]), needed);
    }
  }

  lemma WithoutFirst<T>(x: T, xs: seq<T>, ys: seq<T>, all: seq<T>)
    requires ([x] + xs) + ys == all
    ensures all != [] && xs + ys == all[1..]
  {
    assert [x] + (xs + ys) == all;
  }

  lemma MovedAcross<T>(xs: seq<T>, x: T, ys: seq<T>)
    ensures (xs + [x]) + ys == xs + ([x] + ys)
  {}

  // ---- Putting it together --------------------------------------------------------------------------------

  /** The rest of the invariant, once the acknowledged files and the ids are
    * known to be in order. */
  ghost predicate Sound(l: Link) {
    TasksOk(l) && PathsApart(l.r) && StoredApart(l.r) && NoFailure(l) && AllStaged(l) && AllConserved(l)
  }

  lemma GoodIsSound(digest: Digest, l: Link)
    requires Good(digest, l)
    ensures Sound(l) && OffersOnce(l) && TasksOnce(l) && AnswersOnce(l) && RxListed(l)
  {}

  lemma SoundIsGood(digest: Digest, l: Link)
    requires Sound(l) && Verified(digest, l) && Once(l)
    ensures Good(digest, l)
  {}

  lemma DeliverySound(digest: Digest, l: Link, step: Step)
    requires Proceeds(digest, l, step) && (step.ReceiveData? || step.ReceiveDone?)
    ensures Sound(Next(digest, l, step))
  {
    var k := Next(digest, l, step);
    DeliveryEffect(digest, l, step);
    if l.fwd[0].DoneMsg? && IsIncoming(l.r, l.fwd[0].id) { DoneIsComplete(digest, l); }
    GoodIsSound(digest, l);
    DeliveryTasksStep(l, k);
    DeliveryPathsStep(l, k);
    DeliveryStoredStep(l, k);
    DeliveryNoFailure(l, k);
    DeliveryStaged(l, k);
    DeliveryConserved(l, k);
  }

  lemma AnswerSound(digest: Digest, l: Link, step: Step)
    requires Sound(l) && OffersOnce(l) && RxListed(l) && Enabled(l, step) && Orderly(l, step)
    requires step.ReceiveOffer? || step.Decide? || step.Rename?
    ensures Sound(Next(digest, l, step))
  {
    AnswerTasksStep(digest, l, step);
    OfferPathsStep(digest, l, step);
    OfferStoredStep(digest, l, step);
    ReceiverNoFailure(digest, l, step);
    if step.Decide? && step.accept {
      AcceptStaged(digest, l, step);
      AcceptConserved(digest, l, step);
    } else {
      if step.Rename? { RenameStaged(digest, l, step); } else { OfferStaged(digest, l, step); }
      SettledConserved(digest, l, step);
    }
  }

  lemma ReplySound(digest: Digest, l: Link, step: Step)
    requires Sound(l) && OffersOnce(l) && AnswersOnce(l) && Enabled(l, step)
      && (step.ReceiveAck? || step.ReceiveAnswer?)
    ensures Sound(Next(digest, l, step))
  {
    ReplyTasksStep(digest, l, step);
    ReplyNoFailure(digest, l, step);
    SenderStaged(digest, l, step);
    if step.ReceiveAck? {
      QuietConserved(digest, l, step);
    } else {
      assert Unused(l, l.back[0].id);
      StartConserved(digest, l, step);
    }
  }

  lemma SenderSound(digest: Digest, l: Link, step: Step)
    requires Sound(l) && OffersOnce(l) && TasksOnce(l) && Enabled(l, step) && Orderly(l, step)
    requires step.Offer? || step.List? || step.TaskGetsAck? || step.TaskSends? || step.TaskDone?
    ensures Sound(Next(digest, l, step))
  {
    SenderNoFailure(digest, l, step);
    SenderStaged(digest, l, step);
    if step.TaskSends? || step.TaskDone? {
      StreamTasksStep(digest, l, step);
      StreamConserved(digest, l, step);
    } else {
      SenderTasksStep(digest, l, step);
      if step.Offer? { OfferedConserved(digest, l, step); } else { QuietConserved(digest, l, step); }
    }
  }

  lemma SameMessagesSound(l: Link, k: Link)
    requires TasksOk(l) && NoFailure(l) && k.s == l.s && k.r == l.r
    requires (forall m :: m in k.fwd <==> m in l.fwd) && (forall m :: m in k.back <==> m in l.back)
    ensures TasksOk(k) && NoFailure(k)
  {}

  lemma SameFlightsConserved(l: Link, k: Link)
    requires TasksOk(l) && TasksOk(k) && AllConserved(l) && k.s == l.s && k.r == l.r
    requires forall id :: Flight(k.fwd, id) == Flight(l.fwd, id)
    ensures AllConserved(k)
  {
    forall id | IsIncoming(k.r, id) ensures id in k.s.tx && Conserved(k, id) {
      SameConserved(l, k, id);
    }
  }

  lemma ReorderSound(digest: Digest, l: Link, step: Step)
    requires Sound(l) && Enabled(l, step) && (step.Reorder? || step.ReorderBack?)
    ensures Sound(Next(digest, l, step))
  {
    var k := Next(digest, l, step);
    if step.Reorder? {
      ExchangedMembership(l.fwd, step.p);
      forall id ensures Flight(k.fwd, id) == Flight(l.fwd, id) { FlightExchanged(l.fwd, step.p, id); }
    } else {
      ExchangedMembership(l.back, step.p);
    }
    SameMessagesSound(l, k);
    SameFlightsConserved(l, k);
    SameReceiverStaged(l, k);
  }

  lemma StepKeepsSound(digest: Digest, l: Link, step: Step)
    requires Proceeds(digest, l, step)
    ensures Sound(Next(digest, l, step))
  {
    if step.ReceiveData? || step.ReceiveDone? {
      DeliverySound(digest, l, step);
    } else {
      GoodIsSound(digest, l);
      if step.ReceiveOffer? || step.Decide? || step.Rename? {
        AnswerSound(digest, l, step);
      } else if step.ReceiveAck? || step.ReceiveAnswer? {
        ReplySound(digest, l, step);
      } else if step.Reorder? || step.ReorderBack? {
        ReorderSound(digest, l, step);
      } else {
        SenderSound(digest, l, step);
      }
    }
  }

  lemma StepKeepsGood(digest: Digest, l: Link, step: Step)
    requires Proceeds(digest, l, step)
    ensures Good(digest, Next(digest, l, step))
  {
    StepKeepsVerified(digest, l, step);
    StepKeepsOnce(digest, l, step);
    StepKeepsSound(digest, l, step);
    SoundIsGood(digest, Next(digest, l, step));
  }

  lemma InitialIsVerified(digest: Digest, l: Link)
    requires Initial(l)
    ensures Verified(digest, l)
  {}

  lemma InitialIsOnce(l: Link)
    requires Initial(l)
    ensures Once(l)
  {}

  lemma InitialIsSound(l: Link)
    requires Initial(l)
    ensures Sound(l)
  {}

  lemma InitialIsGood(digest: Digest, l: Link)
    requires Initial(l)
    ensures Good(digest, l)
  {
    InitialIsVerified(digest, l);
    InitialIsOnce(l);
    InitialIsSound(l);
    SoundIsGood(digest, l);
  }

  /** In every orderly interleaving of any number of transfers and connections the invariant
    * holds: nothing is aborted, every acknowledgement and every receiver
    * report is positive, and the sender reports failure only for offers that
    * were refused. */
  lemma {:induction false} NoSpuriousFailure(digest: Digest, trace: seq<Link>, steps: seq<Step>, n: nat)
    requires CollisionFree(digest) && Execution(digest, trace, steps) && Initial(trace[0]) && n < |trace|
    requires forall i :: 0 <= i < |steps| ==> Orderly(trace[i], steps[i])
    ensures Good(digest, trace[n])
  {
    if n == 0 {
      InitialIsGood(digest, trace[0]);
    } else {
      var m := n - 1;
      NoSpuriousFailure(digest, trace, steps, m);
      assert Enabled(trace[m], steps[m]) && Orderly(trace[m], steps[m])
        && trace[m + 1] == Next(digest, trace[m], steps[m]);
      StepKeepsGood(digest, trace[m], steps[m]);
    }
  }

  lemma FileStays(digest: Digest, l: Link, step: Step, id: Id)
    requires Enabled(l, step) && id in l.s.tx
    ensures id in Next(digest, l, step).s.tx && Next(digest, l, step).s.tx[id].file == l.s.tx[id].file
  {}

  lemma StoredStays(digest: Digest, l: Link, step: Step, id: Id)
    requires OffersOnce(l) && Enabled(l, step) && id in l.r.rx && l.r.rx[id].Stored?
    ensures id in Next(digest, l, step).r.rx && Next(digest, l, step).r.rx[id] == l.r.rx[id]
  {
    if step.ReceiveData? || step.ReceiveDone? { DeliveryKeepsStored(digest, l, step, id); }
  }

  lemma DeliveryKeepsStored(digest: Digest, l: Link, step: Step, id: Id)
    requires Enabled(l, step) && (step.ReceiveData? || step.ReceiveDone?) && id in l.r.rx && l.r.rx[id].Stored?
    ensures id in Next(digest, l, step).r.rx && Next(digest, l, step).r.rx[id] == l.r.rx[id]
  {}

  /** The rename stores the transfer, and it stays stored. */
  lemma {:induction false} StoredAfterRename(digest: Digest, trace: seq<Link>, steps: seq<Step>, n: nat, m: nat)
    requires CollisionFree(digest) && Execution(digest, trace, steps) && Initial(trace[0])
    requires forall i :: 0 <= i < |steps| ==> Orderly(trace[i], steps[i])
    requires n < m < |trace| && steps[n].Rename?
    ensures var id := steps[n].id;
            && id in trace[n].r.rx && trace[n].r.rx[id].Finishing?
            && id in trace[m].r.rx && trace[m].r.rx[id].Stored? && trace[m].r.rx[id].dest == trace[n].r.rx[id].dest
            && id in trace[n].s.tx && id in trace[m].s.tx && trace[m].s.tx[id].file == trace[n].s.tx[id].file
  {
    var k := m - 1;
    assert Enabled(trace[k], steps[k]) && trace[k + 1] == Next(digest, trace[k], steps[k]);
    NoSpuriousFailure(digest, trace, steps, k);
    if n == k {
      var l, id := trace[n], steps[n].id;
      assert Staged(l.r, l.r.rx[id], l.s.tx[id].file);
    } else {
      StoredAfterRename(digest, trace, steps, n, k);
      StoredStays(digest, trace[k], steps[k], steps[n].id);
      FileStays(digest, trace[k], steps[k], steps[n].id);
    }
  }

  /** The rename puts exactly the offered file at the destination, and there it
    * is in every later state. */
  lemma RenameDelivers(digest: Digest, trace: seq<Link>, steps: seq<Step>, n: nat, m: nat)
    requires CollisionFree(digest) && Execution(digest, trace, steps) && Initial(trace[0])
    requires forall i :: 0 <= i < |steps| ==> Orderly(trace[i], steps[i])
    requires n < m < |trace| && steps[n].Rename?
    ensures var id, r := steps[n].id, trace[m].r;
            && id in trace[n].r.rx && trace[n].r.rx[id].Finishing? && id in trace[n].s.tx
            && var dest := trace[n].r.rx[id].dest;
               dest in r.names && r.names[dest] < |r.nodes| && r.nodes[r.names[dest]] == trace[n].s.tx[id].file
  {
    StoredAfterRename(digest, trace, steps, n, m);
    NoSpuriousFailure(digest, trace, steps, m);
    var r, id := trace[m].r, steps[n].id;
    assert Staged(r, r.rx[id], trace[m].s.tx[id].file);
  }
}
