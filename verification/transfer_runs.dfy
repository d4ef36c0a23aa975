/** Executions of file_transfer.py over connections that hold, in which a
  * transfer nevertheless fails because two live transfers share a path, or
  * never ends because its accept came too early. */
module TransferRuns {
  import opened Wrappers
  import opened Bytes
  import opened FileReceivers
  import opened DestPaths
  import opened TransferSessions
  import opened TransferProgress
  import opened TransferCompletion

  /** Some execution ends in l in which nothing was lost, no task gave up and no
    * file changed. */
  ghost predicate Reached(digest: Digest, l: Link) {
    exists trace, steps ::
      && Execution(digest, trace, steps) && Initial(trace[0]) && trace[|steps|] == l
      && forall i :: 0 <= i < |steps| ==> Steady(trace[i], steps[i])
  }

  lemma ReachedStep(digest: Digest, l: Link, step: Step, k: Link)
    requires Reached(digest, l) && Enabled(l, step) && Steady(l, step) && k == Next(digest, l, step)
    ensures Reached(digest, k)
  {
    var trace, steps :| Execution(digest, trace, steps) && Initial(trace[0]) && trace[|steps|] == l
                        && forall i :: 0 <= i < |steps| ==> Steady(trace[i], steps[i]);
    var trace', steps' := trace + [k], steps + [step];
    forall i | 0 <= i < |steps'|
      ensures Enabled(trace'[i], steps'[i]) && trace'[i + 1] == Next(digest, trace'[i], steps'[i])
      ensures Steady(trace'[i], steps'[i])
    {
      if i < |steps| { assert trace'[i] == trace[i] && trace'[i + 1] == trace[i + 1] && steps'[i] == steps[i]; }
    }
    assert Execution(digest, trace', steps');
  }

  lemma SameBusy(l: Link, k: Link, c: Connection)
    requires k.r.rx == l.r.rx && k.via == l.via
    ensures Busy(k, c) <==> Busy(l, c)
  {}

  /** With nobody asked and nothing to rename, every connection is read. */
  lemma EveryoneReads(l: Link, c: Connection)
    requires forall id :: id in l.r.rx ==> !l.r.rx[id].Asked? && !l.r.rx[id].Finishing?
    ensures !Busy(l, c)
  {}

  ghost predicate Quiet(digest: Digest, l: Link) { Reached(digest, l) && l.fwd == [] && l.back == [] }

  // ---- The stages of one transfer --------------------------------------------------------------------------

  function AskedLink(digest: Digest, l: Link, id: Id, dest: Path, file: Bytes): Link {
    l.(s := l.s.(tx := l.s.tx[id := Outgoing(file, Listed, false, false)]),
       r := l.r.(rx := l.r.rx[id := Asked(|file|, digest(file), dest)]))
  }

  function OfferedLink(digest: Digest, l: Link, id: Id, name: string, file: Bytes): Link {
    l.(s := l.s.(tx := l.s.tx[id := Outgoing(file, Listed, false, false)]),
      fwd := [OfferMsg(id, name, |file|, digest(file))])
  }

  lemma ReachOffered(digest: Digest, l: Link, id: Id, name: string, file: Bytes)
    requires Quiet(digest, l) && id !in l.s.tx
    ensures Reached(digest, OfferedLink(digest, l, id, name, file))
  {
    var m := OfferMsg(id, name, |file|, digest(file));
    assert [] + [m] == [m];
    var tx1 := l.s.tx[id := Outgoing(file, Announced, false, false)];
    var tx2 := l.s.tx[id := Outgoing(file, Listed, false, false)];
    var l1 := l.(s := l.s.(tx := tx1), fwd := [m]);
    ReachedStep(digest, l, Step.Offer(id, name, file, true), l1);
    assert tx1[id := Outgoing(file, Listed, false, false)] == tx2;
    ReachedStep(digest, l1, List(id), OfferedLink(digest, l, id, name, file));
  }

  /** An offer arrives on an idle connection and waits for the user. */
  lemma ReachAsked(digest: Digest, l: Link, id: Id, name: string, file: Bytes)
    requires Quiet(digest, l) && id !in l.s.tx && |file| <= MaxIncomingFileSize && !Busy(l, l.via(id))
    requires CleanName(name) && Free(l.r.names.Keys, Join(l.dir, name))
    ensures Quiet(digest, AskedLink(digest, l, id, Join(l.dir, name), file))
  {
    ReachOffered(digest, l, id, name, file);
    var dest, l1 := Join(l.dir, name), OfferedLink(digest, l, id, name, file);
    SameBusy(l, l1, l.via(id));
    AskedEnabled(l1, l1.fwd[0], dest);
    ReachedStep(digest, l1, ReceiveOffer(None, false, dest, true), AskedLink(digest, l, id, dest, file));
  }

  lemma AskedEnabled(l: Link, m: Fwd, dest: Path)
    requires Readable(l) && l.fwd[0] == m && m.OfferMsg? && m.size <= MaxIncomingFileSize
    requires CleanName(m.filename) && dest == Join(l.dir, m.filename) && Free(l.r.names.Keys, dest)
    ensures Enabled(l, ReceiveOffer(None, false, dest, true))
  {
    FreeAtOnce(l.r.names.Keys, l.dir, m.filename);
  }

  function AcceptedLink(l: Link, id: Id): Link
    requires id in l.r.rx && l.r.rx[id].Asked?
  {
    l.(s := l.s.(tasks := l.s.tasks + [Task(id, 0, 0, Streaming)]), r := AcceptOffer(l.r, id))
  }

  /** The user accepts, and the sender starts a task. */
  lemma ReachAccepted(digest: Digest, l: Link, id: Id)
    requires Quiet(digest, l) && id in l.r.rx && l.r.rx[id].Asked? && IsListed(l.s, id)
    ensures Quiet(digest, AcceptedLink(l, id))
  {
    assert [] + [AcceptMsg(id)] == [AcceptMsg(id)];
    var l1 := l.(r := AcceptOffer(l.r, id), back := [AcceptMsg(id)]);
    ReachedStep(digest, l, Decide(id, true, true), l1);
    ReachedStep(digest, l1, ReceiveAnswer, AcceptedLink(l, id));
  }

  /** A file of one chunk, ready to be streamed by task i. */
  ghost predicate Ready(l: Link, i: nat, file: Bytes) {
    && i < |l.s.tasks| && l.s.tasks[i] == Task(l.s.tasks[i].id, 0, 0, Streaming) && 0 < |file| <= ChunkSize
    && (forall id :: id in l.r.rx ==> !l.r.rx[id].Asked? && !l.r.rx[id].Finishing?)
    && var id := l.s.tasks[i].id;
       && id in l.s.tx && l.s.tx[id].file == file && IsIncoming(l.r, id)
       && var x := l.r.rx[id];
          x.bytesReceived == 0 && x.expectedIndex == 0 && x.size == |file| && x.node < |l.r.nodes|
            && l.r.nodes[x.node] == []
  }

  ghost function StreamedLink(l: Link, i: nat, file: Bytes): Link
    requires Ready(l, i, file)
  {
    var id := l.s.tasks[i].id;
    var x := l.r.rx[id];
    l.(s := l.s.(tasks := l.s.tasks[i := Task(id, |file|, 1, AwaitingAck)]),
       r := l.r.(nodes := l.r.nodes[x.node := file],
         rx := l.r.rx[id := x.(bytesReceived := |file|, expectedIndex := 1)]),
       fwd := [DoneMsg(id)])
  }

  ghost function SentLink(l: Link, i: nat, file: Bytes): Link
    requires Ready(l, i, file)
  {
    var id := l.s.tasks[i].id;
    l.(s := l.s.(tasks := l.s.tasks[i := Task(id, |file|, 1, AwaitingAck)]),
      fwd := [DataMsg(id, 0, 0, file), DoneMsg(id)])
  }

  lemma ReachSent(digest: Digest, l: Link, i: nat, file: Bytes)
    requires Quiet(digest, l) && Ready(l, i, file)
    ensures Reached(digest, SentLink(l, i, file))
  {
    var id := l.s.tasks[i].id;
    var m, d := DataMsg(id, 0, 0, file), DoneMsg(id);
    assert [] + [m] == [m] && [m] + [d] == [m, d];
    assert ChunkEnd(file, 0) == |file| && file[0..|file|] == file;
    var t1, t2 := Task(id, |file|, 1, Streaming), Task(id, |file|, 1, AwaitingAck);
    var l1 := l.(s := l.s.(tasks := l.s.tasks[i := t1]), fwd := [m]);
    ReachedStep(digest, l, TaskSends(i, file, true), l1);
    assert l.s.tasks[i := t1][i := t2] == l.s.tasks[i := t2];
    ReachedStep(digest, l1, TaskDone(i, true), SentLink(l, i, file));
  }

  /** All bytes arrive and file_done is on its way. */
  lemma ReachStreamed(digest: Digest, l: Link, i: nat, file: Bytes)
    requires Quiet(digest, l) && Ready(l, i, file)
    ensures Reached(digest, StreamedLink(l, i, file))
  {
    ReachSent(digest, l, i, file);
    var l1, id := SentLink(l, i, file), l.s.tasks[i].id;
    assert file[..0] == [] && file[0..|file|] == file && ChunkEnd(file, 0) == |file| && file[..|file|] == file;
    ChunkWrites(l1.r, l1.fwd[0], file);
    assert l.back + [] == l.back;
    assert l1.fwd[1..] == [DoneMsg(id)];
    EveryoneReads(l1, l.via(id));
    ReachedStep(digest, l1, ReceiveData(true), StreamedLink(l, i, file));
  }

  ghost predicate Awaiting(digest: Digest, l: Link, i: nat, staged: Bytes, success: bool) {
    && i < |l.s.tasks| && l.s.tasks[i].phase == AwaitingAck
    && (forall id :: id in l.r.rx ==> !l.r.rx[id].Asked? && !l.r.rx[id].Finishing?)
    && var id := l.s.tasks[i].id;
       && l.fwd == [DoneMsg(id)] && l.back == [] && IsListed(l.s, id) && IsIncoming(l.r, id)
       && StagedAt(l.r, l.r.rx[id].dest) == Some(staged)
       && success == (digest(staged) == l.r.rx[id].checksum && l.r.rx[id].bytesReceived == l.r.rx[id].size)
  }

  ghost function AnsweredReceiver(digest: Digest, l: Link, i: nat, staged: Bytes, success: bool): Receiver
    requires Awaiting(digest, l, i, staged, success)
  {
    var id := l.s.tasks[i].id;
    var x := l.r.rx[id];
    l.r.(rx := l.r.rx[id := Finishing(x.dest, x.node, success)],
         verified := if success then l.r.verified[id := staged] else l.r.verified)
  }

  ghost function EndedLink(digest: Digest, l: Link, i: nat, staged: Bytes, success: bool): Link
    requires Awaiting(digest, l, i, staged, success)
  {
    var id := l.s.tasks[i].id;
    Link(Sender(l.s.tx[id := Outgoing(l.s.tx[id].file, Unlisted, true, success)],
                l.s.tasks[i := l.s.tasks[i].(phase := Ended)], l.s.reports + [(id, success)]),
         FinishDone(AnsweredReceiver(digest, l, i, staged, success), id), [], [], l.dir, l.via)
  }

  ghost function AckedLink(digest: Digest, l: Link, i: nat, staged: Bytes, success: bool): Link
    requires Awaiting(digest, l, i, staged, success)
  {
    var id := l.s.tasks[i].id;
    l.(s := l.s.(tx := l.s.tx[id := Outgoing(l.s.tx[id].file, Listed, true, success)]),
       r := AnsweredReceiver(digest, l, i, staged, success), fwd := [], back := [])
  }

  lemma ReachAcked(digest: Digest, l: Link, i: nat, staged: Bytes, success: bool)
    requires Reached(digest, l) && Awaiting(digest, l, i, staged, success)
    ensures Reached(digest, AckedLink(digest, l, i, staged, success))
  {
    var id := l.s.tasks[i].id;
    var r, ack := AnsweredReceiver(digest, l, i, staged, success), AckMsg(id, success);
    assert [] + [ack] == [ack];
    var l1 := l.(r := r, fwd := [], back := [ack]);
    EveryoneReads(l, l.via(id));
    ReachedStep(digest, l, ReceiveDone(true), l1);
    ReachedStep(digest, l1, ReceiveAck, AckedLink(digest, l, i, staged, success));
  }

  /** The verdict reaches the sender, and the receiver renames or cleans up. */
  lemma ReachEnded(digest: Digest, l: Link, i: nat, staged: Bytes, success: bool)
    requires Reached(digest, l) && Awaiting(digest, l, i, staged, success)
    ensures Quiet(digest, EndedLink(digest, l, i, staged, success))
  {
    ReachAcked(digest, l, i, staged, success);
    var l2, last := AckedLink(digest, l, i, staged, success), EndedLink(digest, l, i, staged, success);
    var id := l.s.tasks[i].id;
    assert l2.s.tx[id := l2.s.tx[id].(listing := Unlisted)] == last.s.tx;
    var l3 := last.(r := l2.r);
    ReachedStep(digest, l2, TaskGetsAck(i), l3);
    ReachedStep(digest, l3, Rename(id), last);
  }

  // ---- Two offers of one name ----------------------------------------------------------------------------------

  ghost function Empty(dir: Path, via: Id -> Connection): Link {
    Link(Sender(map[], [], []), Receiver(map[], map[], [], map[], []), [], [], dir, via)
  }

  lemma ReachEmpty(digest: Digest, dir: Path, via: Id -> Connection)
    ensures Quiet(digest, Empty(dir, via))
  {
    assert Execution(digest, [Empty(dir, via)], []) && Initial([Empty(dir, via)][0]);
  }

  /** Over two connections both offers are given the same path, because nothing
    * marks a path as taken while the user decides. */
  lemma BothAsked(digest: Digest, dir: Path, via: Id -> Connection, name: string, f: Bytes, g: Bytes)
      returns (l: Link)
    requires via("a") != via("b") && CleanName(name) && |f| <= MaxIncomingFileSize && |g| <= MaxIncomingFileSize
    ensures Quiet(digest, l) && l.s.tasks == [] && l.s.reports == [] && l.r.nodes == []
    ensures IsListed(l.s, "a") && l.s.tx["a"].file == f && IsListed(l.s, "b")
    ensures l.r.rx == map["a" := Asked(|f|, digest(f), Join(dir, name)), "b" := Asked(|g|, digest(g), Join(dir, name))]
  {
    var l0 := Empty(dir, via);
    ReachEmpty(digest, dir, via);
    ReachAsked(digest, l0, "a", name, f);
    var l1 := AskedLink(digest, l0, "a", Join(dir, name), f);
    ReachAsked(digest, l1, "b", name, g);
    l := AskedLink(digest, l1, "b", Join(dir, name), g);
  }

  /** Both are accepted: the second has taken over the .part name. */
  ghost predicate BothAccepted(digest: Digest, l: Link, part: Path, f: Bytes) {
    && l.s.tasks == [Task("a", 0, 0, Streaming), Task("b", 0, 0, Streaming)] && l.s.reports == []
    && IsListed(l.s, "a") && l.s.tx["a"].file == f && l.r.nodes == [[], []]
    && part in l.r.names && l.r.names[part] == 1 && l.r.rx.Keys == {"a", "b"} && l.r.rx["b"].Incoming?
    && l.r.rx["a"].Incoming? && PartPath(l.r.rx["a"].dest) == part
    && l.r.rx["a"] == Incoming(|f|, digest(f), l.r.rx["a"].dest, 0, 0, 0)
  }

  lemma ReachBothAccepted(digest: Digest, dir: Path, via: Id -> Connection, name: string, f: Bytes, g: Bytes)
      returns (l: Link)
    requires via("a") != via("b") && CleanName(name) && |f| <= MaxIncomingFileSize && |g| <= MaxIncomingFileSize
    ensures Quiet(digest, l) && BothAccepted(digest, l, PartPath(Join(dir, name)), f)
  {
    var l0 := BothAsked(digest, dir, via, name, f, g);
    ReachAccepted(digest, l0, "a");
    var l1 := AcceptedLink(l0, "a");
    assert l1.s.tasks == [Task("a", 0, 0, Streaming)] && l1.r.nodes == [[]];
    ReachAccepted(digest, l1, "b");
    l := AcceptedLink(l1, "b");
  }

  /** All of the first one's bytes arrive, and the .part name leads elsewhere. */
  lemma StreamedElsewhere(digest: Digest, l: Link, part: Path, f: Bytes)
    requires BothAccepted(digest, l, part, f) && l.fwd == [] && l.back == [] && 0 < |f| <= ChunkSize
    requires digest([]) != digest(f)
    ensures Ready(l, 0, f) && Awaiting(digest, StreamedLink(l, 0, f), 0, [], false)
    ensures var k := StreamedLink(l, 0, f); k.r.nodes == [f, []] && IsListed(k.s, "a") && k.s.tx["a"].file == f
  {
    var k := StreamedLink(l, 0, f);
    assert k.r.nodes == [f, []];
    assert k.s.tasks == [Task("a", |f|, 1, AwaitingAck), Task("b", 0, 0, Streaming)];
  }

  /** The earlier accepted one is reported failed although all its bytes arrived. */
  lemma SharedPathFails(digest: Digest, dir: Path, via: Id -> Connection, name: string, f: Bytes, g: Bytes)
      returns (k: Link)
    requires via("a") != via("b") && CollisionFree(digest) && CleanName(name)
    requires 0 < |f| <= ChunkSize && |g| <= MaxIncomingFileSize
    ensures Reached(digest, k) && ("a", false) in k.s.reports
    ensures "a" in k.s.tx && k.s.tx["a"].file == f && f in k.r.nodes
  {
    var l := ReachBothAccepted(digest, dir, via, name, f, g);
    assert digest([]) != digest(f);
    StreamedElsewhere(digest, l, PartPath(Join(dir, name)), f);
    ReachStreamed(digest, l, 0, f);
    var l1 := StreamedLink(l, 0, f);
    ReachEnded(digest, l1, 0, [], false);
    k := EndedLink(digest, l1, 0, [], false);
    assert k.s.reports[|k.s.reports| - 1] == ("a", false);
    assert k.r.nodes[0] == f;
  }

  // ---- A .part name that is a destination -------------------------------------------------------------------------

  lemma FirstAccepted(digest: Digest, dir: Path, via: Id -> Connection, name: string, f: Bytes) returns (l: Link)
    requires CleanName(name) && |f| <= MaxIncomingFileSize
    ensures Quiet(digest, l) && l.s.tasks == [Task("a", 0, 0, Streaming)] && l.s.reports == [] && l.dir == dir
    ensures l.s.tx == map["a" := Outgoing(f, Listed, false, false)] && l.r.nodes == [[]]
    ensures l.r.names == map[PartPath(Join(dir, name)) := 0]
    ensures l.r.rx == map["a" := Incoming(|f|, digest(f), Join(dir, name), 0, 0, 0)]
  {
    var l0 := Empty(dir, via);
    ReachEmpty(digest, dir, via);
    ReachAsked(digest, l0, "a", name, f);
    var l1 := AskedLink(digest, l0, "a", Join(dir, name), f);
    ReachAccepted(digest, l1, "a");
    l := AcceptedLink(l1, "a");
  }

  /** Two transfers are accepted, the first to be staged under the second's name
    * with two .part behind it. */
  ghost predicate TwoAccepted(digest: Digest, l: Link, second: Path, f: Bytes, g: Bytes) {
    && l.s == Sender(map["a" := Outgoing(f, Listed, false, false), "b" := Outgoing(g, Listed, false, false)],
                     [Task("a", 0, 0, Streaming), Task("b", 0, 0, Streaming)], [])
    && l.r.nodes == [[], []] && l.r.names == map[PartPath(PartPath(second)) := 0, PartPath(second) := 1]
    && l.r.rx == map["a" := Incoming(|f|, digest(f), PartPath(second), 0, 0, 0),
                     "b" := Incoming(|g|, digest(g), second, 1, 0, 0)]
  }

  /** Strictly in turn, one transfer is accepted under a name ending in .part and
    * then one under the same name without it. */
  lemma AcceptedInTurn(digest: Digest, dir: Path, via: Id -> Connection, name: string, f: Bytes, g: Bytes)
      returns (l: Link)
    requires CleanName(name) && |f| <= MaxIncomingFileSize && |g| <= MaxIncomingFileSize
    ensures Quiet(digest, l) && TwoAccepted(digest, l, Join(dir, name), f, g)
  {
    var second := Join(dir, name);
    var first := PartPath(second);
    assert |PartPath(first)| == |first| + 5 == |second| + 10;
    CleanPartName(name);
    var l2 := FirstAccepted(digest, dir, via, name + PartExtension, f);
    ReachAsked(digest, l2, "b", name, g);
    var l3 := AskedLink(digest, l2, "b", second, g);
    ReachAccepted(digest, l3, "b");
    l := AcceptedLink(l3, "b");
  }

  /** The first's bytes have all arrived. */
  ghost predicate FirstStreamed(digest: Digest, l: Link, second: Path, f: Bytes, g: Bytes) {
    && l.s == Sender(map["a" := Outgoing(f, Listed, false, false), "b" := Outgoing(g, Listed, false, false)],
                     [Task("a", |f|, 1, AwaitingAck), Task("b", 0, 0, Streaming)], [])
    && l.r.nodes == [f, []] && l.r.names == map[PartPath(PartPath(second)) := 0, PartPath(second) := 1]
    && l.r.rx == map["a" := Incoming(|f|, digest(f), PartPath(second), 0, |f|, 1),
                     "b" := Incoming(|g|, digest(g), second, 1, 0, 0)]
    && l.fwd == [DoneMsg("a")] && l.back == []
  }

  lemma StreamedFirst(digest: Digest, l: Link, second: Path, f: Bytes, g: Bytes)
    requires TwoAccepted(digest, l, second, f, g) && l.fwd == [] && l.back == [] && 0 < |f| <= ChunkSize
    ensures Ready(l, 0, f) && FirstStreamed(digest, StreamedLink(l, 0, f), second, f, g)
  {}

  lemma FirstAwaits(digest: Digest, l: Link, second: Path, f: Bytes, g: Bytes)
    requires FirstStreamed(digest, l, second, f, g)
    ensures Awaiting(digest, l, 0, f, true)
  {}

  /** The first is delivered and reported so. Its file now sits under the name of
    * the second's .part. */
  ghost predicate FirstStored(digest: Digest, l: Link, second: Path, f: Bytes, g: Bytes) {
    && l.s.tasks == [Task("a", |f|, 1, Ended), Task("b", 0, 0, Streaming)] && l.s.reports == [("a", true)]
    && "b" in l.s.tx && l.s.tx["b"] == Outgoing(g, Listed, false, false)
    && l.r.nodes == [f, []] && l.r.names == map[PartPath(second) := 0]
    && l.r.rx == map["a" := Stored(PartPath(second), 0), "b" := Incoming(|g|, digest(g), second, 1, 0, 0)]
  }

  lemma RenamedFirst(digest: Digest, l: Link, second: Path, f: Bytes, g: Bytes)
    requires FirstStreamed(digest, l, second, f, g) && Awaiting(digest, l, 0, f, true)
    ensures var q := FinishDone(AnsweredReceiver(digest, l, 0, f, true), "a");
            && q.nodes == [f, []] && q.names == map[PartPath(second) := 0]
            && q.rx == map["a" := Stored(PartPath(second), 0), "b" := Incoming(|g|, digest(g), second, 1, 0, 0)]
  {
    assert |PartPath(PartPath(second))| > |PartPath(second)|;
  }

  lemma FirstDelivered(digest: Digest, l: Link, second: Path, f: Bytes, g: Bytes) returns (k: Link)
    requires Quiet(digest, l) && TwoAccepted(digest, l, second, f, g) && 0 < |f| <= ChunkSize
    ensures Quiet(digest, k) && FirstStored(digest, k, second, f, g)
  {
    StreamedFirst(digest, l, second, f, g);
    ReachStreamed(digest, l, 0, f);
    var l1 := StreamedLink(l, 0, f);
    FirstAwaits(digest, l1, second, f, g);
    ReachEnded(digest, l1, 0, f, true);
    k := EndedLink(digest, l1, 0, f, true);
    RenamedFirst(digest, l1, second, f, g);
  }

  lemma StreamedSecond(digest: Digest, l: Link, second: Path, f: Bytes, g: Bytes)
    requires FirstStored(digest, l, second, f, g) && l.fwd == [] && l.back == [] && 0 < |g| <= ChunkSize
    requires digest(f) != digest(g)
    ensures Ready(l, 1, g) && Awaiting(digest, StreamedLink(l, 1, g), 1, f, false)
  {
    assert StreamedLink(l, 1, g).r.nodes == [f, g];
  }

  /** The second is checked against the first's file, found corrupt and reported
    * failed, and cleaning up after it deletes the delivered first file. One
    * connection is enough. */
  lemma NestedPathFails(digest: Digest, dir: Path, via: Id -> Connection, name: string, f: Bytes, g: Bytes)
      returns (k: Link)
    requires CollisionFree(digest) && CleanName(name) && 0 < |f| <= ChunkSize && 0 < |g| <= ChunkSize && f != g
    ensures Reached(digest, k) && k.s.reports == [("a", true), ("b", false)]
    ensures "a" in k.r.rx && k.r.rx["a"].Stored? && k.r.rx["a"].dest !in k.r.names
  {
    var second := Join(dir, name);
    var l := AcceptedInTurn(digest, dir, via, name, f, g);
    var l1 := FirstDelivered(digest, l, second, f, g);
    assert digest(f) != digest(g);
    StreamedSecond(digest, l1, second, f, g);
    ReachStreamed(digest, l1, 1, g);
    var l2 := StreamedLink(l1, 1, g);
    ReachEnded(digest, l2, 1, f, false);
    k := EndedLink(digest, l2, 1, f, false);
    assert k.s.reports == [("a", true)] + [("b", false)];
  }

  // ---- An accept that comes too early -------------------------------------------------------------------------------

  /** The first steps of a transfer whose offer was sent and not yet listed. */
  ghost predicate Early(digest: Digest, l: Link, file: Bytes, x: Rx) {
    && l.s == Sender(map["a" := Outgoing(file, Announced, false, false)], [], [])
    && l.r.rx == map["a" := x] && l.fwd == []
  }

  lemma AskedEarly(digest: Digest, dir: Path, via: Id -> Connection, name: string, file: Bytes) returns (l: Link)
    requires CleanName(name) && |file| <= MaxIncomingFileSize
    ensures Reached(digest, l) && Early(digest, l, file, Asked(|file|, digest(file), Join(dir, name)))
    ensures l.back == [] && l.r.resolved == []
  {
    var l0, m := Empty(dir, via), OfferMsg("a", name, |file|, digest(file));
    ReachEmpty(digest, dir, via);
    var l1 := l0.(s := Sender(map["a" := Outgoing(file, Announced, false, false)], [], []), fwd := [m]);
    assert [] + [m] == [m];
    ReachedStep(digest, l0, Step.Offer("a", name, file, true), l1);
    FreeAtOnce(l1.r.names.Keys, dir, name);
    EveryoneReads(l1, via("a"));
    l := l1.(r := l1.r.(rx := map["a" := Asked(|file|, digest(file), Join(dir, name))]), fwd := []);
    ReachedStep(digest, l1, ReceiveOffer(None, false, Join(dir, name), true), l);
  }

  lemma IgnoredEarly(digest: Digest, l: Link, file: Bytes, x: Rx) returns (k: Link)
    requires Reached(digest, l) && Early(digest, l, file, x) && x.Asked? && l.back == [] && l.r.resolved == []
    ensures Reached(digest, k) && Early(digest, k, file, Incoming(x.size, x.checksum, x.dest, |l.r.nodes|, 0, 0))
    ensures k.back == [] && k.r.resolved == []
  {
    var l1 := l.(r := AcceptOffer(l.r, "a"), back := [AcceptMsg("a")]);
    assert [] + [AcceptMsg("a")] == [AcceptMsg("a")];
    ReachedStep(digest, l, Decide("a", true, true), l1);
    k := l1.(back := []);
    ReachedStep(digest, l1, ReceiveAnswer, k);
  }

  lemma ListedLate(digest: Digest, l: Link, file: Bytes, x: Rx) returns (k: Link)
    requires Reached(digest, l) && Early(digest, l, file, x) && x.Incoming? && l.back == []
    ensures Reached(digest, k) && Still(k) && k.r == l.r
    ensures k.s == Sender(map["a" := Outgoing(file, Listed, false, false)], [], [])
  {
    k := l.(s := l.s.(tx := map["a" := Outgoing(file, Listed, false, false)]));
    ReachedStep(digest, l, List("a"), k);
  }

  /** The accept is handled before the offer is listed and starts no task. Nothing
    * is lost and nothing is left to do, yet the transfer waits for ever. */
  lemma AcceptBeforeList(digest: Digest, dir: Path, via: Id -> Connection, name: string, file: Bytes)
      returns (k: Link)
    requires CleanName(name) && |file| <= MaxIncomingFileSize
    ensures Reached(digest, k) && Quiescent(k)
    ensures IsIncoming(k.r, "a") && IsListed(k.s, "a") && k.s.reports == [] && k.r.resolved == []
  {
    var x := Asked(|file|, digest(file), Join(dir, name));
    var l := AskedEarly(digest, dir, via, name, file);
    var l1 := IgnoredEarly(digest, l, file, x);
    k := ListedLate(digest, l1, file, l1.r.rx["a"]);
    QuiescentExactly(k);
  }
}
