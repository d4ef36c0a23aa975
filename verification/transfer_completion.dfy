/** What has become of every transfer once nothing is left to do. */
module TransferCompletion {
  import opened Wrappers
  import opened Bytes
  import opened FileReceivers
  import opened TransferSessions
  import opened TransferSafety
  import opened TransferOnce
  import opened TransferProgress

  // ---- Nothing left to do -----------------------------------------------------------------------------------

  /** The steps that sessions and users take on transfers already offered. */
  predicate Own(step: Step) {
    !step.Offer? && !step.Reorder? && !step.ReorderBack? && !step.Break? && !step.TaskGivesUp?
  }

  ghost predicate Quiescent(l: Link) {
    forall step :: Own(step) && Steady(l, step) ==> !Enabled(l, step)
  }

  ghost predicate Still(l: Link) {
    && l.fwd == [] && l.back == []
    && (forall id :: id in l.s.tx ==> l.s.tx[id].listing != Announced)
    && (forall i :: 0 <= i < |l.s.tasks| ==> l.s.tasks[i].phase != Streaming)
    && (forall i :: 0 <= i < |l.s.tasks| && l.s.tasks[i].phase == AwaitingAck ==>
          l.s.tasks[i].id in l.s.tx && !l.s.tx[l.s.tasks[i].id].ackSet)
    && (forall id :: id in l.r.rx ==> !l.r.rx[id].Asked? && !l.r.rx[id].Finishing?)
  }

  lemma NobodyWaits(l: Link)
    requires Quiescent(l)
    ensures forall id :: id in l.r.rx ==> !l.r.rx[id].Asked? && !l.r.rx[id].Finishing?
    ensures forall id :: id in l.s.tx ==> l.s.tx[id].listing != Announced
  {
    forall id | id in l.r.rx ensures !l.r.rx[id].Asked? && !l.r.rx[id].Finishing? {
      assert !Enabled(l, Decide(id, true, true)) && !Enabled(l, Rename(id));
    }
    forall id | id in l.s.tx ensures l.s.tx[id].listing != Announced {
      assert !Enabled(l, List(id));
    }
  }

  lemma HeadIsRead(l: Link)
    requires Readable(l)
    ensures exists step :: Own(step) && Steady(l, step) && Enabled(l, step)
  {
    var m := l.fwd[0];
    if m.OfferMsg? {
      var refuse := OfferRefused(m, None);
      var step := ReceiveOffer(None, refuse, if refuse then "" else OfferPath(l.r, l.dir, m), true);
      assert Own(step) && Steady(l, step) && Enabled(l, step);
    } else {
      var step := if m.DataMsg? then ReceiveData(true) else ReceiveDone(true);
      assert Own(step) && Steady(l, step) && Enabled(l, step);
    }
  }

  lemma NothingOnItsWay(l: Link)
    requires Quiescent(l)
    ensures l.fwd == [] && l.back == []
  {
    NobodyWaits(l);
    assert !Enabled(l, ReceiveAnswer) && !Enabled(l, ReceiveAck);
    if l.fwd != [] { HeadIsRead(l); }
  }

  lemma TasksRest(l: Link, i: nat)
    requires Quiescent(l) && TasksOk(l) && i < |l.s.tasks|
    ensures l.s.tasks[i].phase != Streaming
    ensures l.s.tasks[i].phase == AwaitingAck ==> !l.s.tx[l.s.tasks[i].id].ackSet
  {
    var t := l.s.tasks[i];
    var file := l.s.tx[t.id].file;
    if t.phase == Streaming {
      if t.offset < |file| {
        var data := file[t.offset..ChunkEnd(file, t.offset)];
        assert Steady(l, TaskSends(i, data, true)) && Enabled(l, TaskSends(i, data, true));
      } else {
        assert Steady(l, TaskDone(i, true)) && Enabled(l, TaskDone(i, true));
      }
    }
    assert !Enabled(l, TaskGetsAck(i));
  }

  /** No own step is left exactly when nothing is on its way, nobody is asked,
    * nothing waits to be listed or renamed, and no task can move. In any other
    * state some step can be taken. */
  lemma QuiescentExactly(l: Link)
    requires TasksOk(l)
    ensures Quiescent(l) <==> Still(l)
  {
    if Quiescent(l) {
      NobodyWaits(l);
      NothingOnItsWay(l);
      forall i | 0 <= i < |l.s.tasks|
        ensures l.s.tasks[i].phase != Streaming
        ensures l.s.tasks[i].phase == AwaitingAck ==> !l.s.tx[l.s.tasks[i].id].ackSet
      {
        TasksRest(l, i);
      }
    }
  }

  // ---- Acknowledgements lead to reports --------------------------------------------------------------------

  /** Task i of a staged transfer has sent everything and has its verdict, or the
    * verdict is on its way. */
  ghost predicate Acknowledged(l: Link, id: Id, i: nat) {
    && i < |l.s.tasks| && l.s.tasks[i].id == id && l.s.tasks[i].phase != Streaming
    && (l.s.tasks[i].phase == Ended || (id in l.s.tx && l.s.tx[id].ackSet) || AckMsg(id, true) in l.back)
  }

  predicate Arrived(x: Rx) { x.Finishing? || x.Stored? }

  ghost predicate HasTask(s: Sender, id: Id) { exists i :: 0 <= i < |s.tasks| && s.tasks[i].id == id }

  /** Running tasks are listed, ended ones reported. */
  ghost predicate TasksListed(s: Sender) {
    forall i :: 0 <= i < |s.tasks| ==>
      if s.tasks[i].phase == Ended then (s.tasks[i].id, true) in s.reports else IsListed(s, s.tasks[i].id)
  }

  ghost predicate Closing(l: Link) {
    && TasksListed(l.s)
    && (forall p :: p in l.s.reports && p.1 ==> HasTask(l.s, p.0))
    && (forall id :: id in l.r.rx ==> !l.r.rx[id].Resolved?)
    && (forall id :: id in l.r.rx && Arrived(l.r.rx[id]) ==>
          exists i :: Acknowledged(l, id, i))
  }

  /** The receiver's entries and the acknowledgements on their way may change,
    * as long as no verdict is lost. */
  lemma ReceiverCloses(l: Link, k: Link)
    requires Closing(l) && k.s.tasks == l.s.tasks && k.s.reports == l.s.reports
    requires forall id :: IsListed(l.s, id) ==> IsListed(k.s, id) && k.s.tx[id].ackSet == l.s.tx[id].ackSet
    requires forall id :: AckMsg(id, true) in l.back ==> AckMsg(id, true) in k.back
    requires forall id :: id in k.r.rx ==> !k.r.rx[id].Resolved?
    requires forall id :: id in k.r.rx && Arrived(k.r.rx[id]) ==>
      (id in l.r.rx && Arrived(l.r.rx[id])) || exists i :: Acknowledged(k, id, i)
    ensures Closing(k)
  {
    assert forall id :: HasTask(l.s, id) ==> HasTask(k.s, id);
    forall id | id in k.r.rx && Arrived(k.r.rx[id]) ensures exists i :: Acknowledged(k, id, i) {
      if id in l.r.rx && Arrived(l.r.rx[id]) {
        var i :| Acknowledged(l, id, i);
        assert Acknowledged(k, id, i);
      }
    }
  }

  lemma OfferCloses(digest: Digest, l: Link, step: Step)
    requires Closing(l) && Enabled(l, step) && Steady(l, step)
    requires step.Offer? || step.List? || step.Decide? || step.ReceiveOffer?
    ensures Closing(Next(digest, l, step))
  {
    ReceiverCloses(l, Next(digest, l, step));
  }

  lemma RenameCloses(digest: Digest, l: Link, step: Step)
    requires Closing(l) && AllStaged(l) && Enabled(l, step) && step.Rename?
    ensures Closing(Next(digest, l, step))
  {
    assert Staged(l.r, l.r.rx[step.id], l.s.tx[step.id].file);
    ReceiverCloses(l, Next(digest, l, step));
  }

  lemma ReorderCloses(digest: Digest, l: Link, step: Step)
    requires Closing(l) && Enabled(l, step) && (step.Reorder? || step.ReorderBack?)
    ensures Closing(Next(digest, l, step))
  {
    if step.ReorderBack? { ExchangedMembership(l.back, step.p); }
    ReceiverCloses(l, Next(digest, l, step));
  }

  /** When file_done arrives, its task has nothing left to send. */
  lemma DoneWasLast(digest: Digest, l: Link) returns (i: nat)
    requires Good(digest, l) && l.fwd != [] && l.fwd[0].DoneMsg? && IsIncoming(l.r, l.fwd[0].id)
    ensures i < |l.s.tasks| && l.s.tasks[i].id == l.fwd[0].id && l.s.tasks[i].phase != Streaming
  {
    var id := l.fwd[0].id;
    assert Conserved(l, id);
    assert Flight(l.fwd, id) != [];
    i :| 0 <= i < |l.s.tasks| && l.s.tasks[i].id == id;
    DoneIsComplete(digest, l);
    var file, x := l.s.tx[id].file, l.r.rx[id];
    var needed := Needed(id, file, x.bytesReceived, x.expectedIndex);
    assert |Flight(l.fwd, id) + Unsent(file, l.s.tasks[i])| == |needed| == 1;
  }

  lemma DeliveredCloses(l: Link, k: Link, i: nat)
    requires Closing(l) && Delivered(l, k)
    requires l.fwd[0].DoneMsg? && IsIncoming(l.r, l.fwd[0].id) ==>
      i < |l.s.tasks| && l.s.tasks[i].id == l.fwd[0].id && l.s.tasks[i].phase != Streaming
    ensures Closing(k)
  {
    var id := l.fwd[0].id;
    if l.fwd[0].DoneMsg? && IsIncoming(l.r, id) {
      assert k.back[|l.back|] == AckMsg(id, true);
      assert Acknowledged(k, id, i);
    }
    ReceiverCloses(l, k);
  }

  lemma DeliveryCloses(digest: Digest, l: Link, step: Step)
    requires Proceeds(digest, l, step) && Closing(l) && (step.ReceiveData? || step.ReceiveDone?)
    ensures Closing(Next(digest, l, step))
  {
    DeliveryEffect(digest, l, step);
    if l.fwd[0].DoneMsg? && IsIncoming(l.r, l.fwd[0].id) {
      var i := DoneWasLast(digest, l);
      DeliveredCloses(l, Next(digest, l, step), i);
    } else {
      DeliveredCloses(l, Next(digest, l, step), 0);
    }
  }

  /** A task goes on, or ends with its report. */
  lemma TaskCloses(l: Link, k: Link, i: nat)
    requires Closing(l) && TasksOnce(l) && i < |l.s.tasks| && k.r == l.r && k.back == l.back
    requires |k.s.tasks| == |l.s.tasks| && k.s.tasks == l.s.tasks[i := k.s.tasks[i]]
    requires k.s.tasks[i].id == l.s.tasks[i].id && l.s.tasks[i].phase != Ended
    requires l.s.tasks[i].phase != Streaming ==> k.s.tasks[i].phase == Ended
    requires if k.s.tasks[i].phase == Ended then k.s.reports == l.s.reports + [(l.s.tasks[i].id, true)]
             else k.s.reports == l.s.reports
    requires forall id :: IsListed(l.s, id) && (k.s.tasks[i].phase == Ended ==> id != l.s.tasks[i].id) ==>
      IsListed(k.s, id)
    requires forall id :: id in l.s.tx ==> id in k.s.tx && k.s.tx[id].ackSet == l.s.tx[id].ackSet
    ensures Closing(k)
  {
    forall id | HasTask(l.s, id) ensures HasTask(k.s, id) {
      var j :| 0 <= j < |l.s.tasks| && l.s.tasks[j].id == id;
      assert k.s.tasks[j].id == id;
    }
    assert HasTask(k.s, l.s.tasks[i].id);
    forall id | id in k.r.rx && Arrived(k.r.rx[id]) ensures exists j :: Acknowledged(k, id, j) {
      var j :| Acknowledged(l, id, j);
      assert Acknowledged(k, id, j);
    }
  }

  lemma StreamCloses(digest: Digest, l: Link, step: Step)
    requires Closing(l) && TasksOnce(l) && NoFailure(l) && Enabled(l, step) && Steady(l, step)
    requires step.TaskSends? || step.TaskDone? || step.TaskGetsAck?
    ensures Closing(Next(digest, l, step))
  {
    TaskCloses(l, Next(digest, l, step), step.i);
  }

  /** An answer is for a transfer that has no task. */
  lemma AnswerCloses(digest: Digest, l: Link, step: Step)
    requires Closing(l) && Enabled(l, step) && step.ReceiveAnswer? && Unused(l, l.back[0].id)
    ensures Closing(Next(digest, l, step))
  {
    var k, a := Next(digest, l, step), l.back[0].id;
    assert forall i :: 0 <= i < |l.s.tasks| ==> k.s.tasks[i] == l.s.tasks[i] && l.s.tasks[i].id != a;
    assert forall p :: p in k.s.reports && p.1 ==> p in l.s.reports;
    assert forall p :: p in l.s.reports ==> p in k.s.reports;
    forall id | HasTask(l.s, id) ensures HasTask(k.s, id) {
      var j :| 0 <= j < |l.s.tasks| && l.s.tasks[j].id == id;
      assert k.s.tasks[j].id == id;
    }
    forall id | id in k.r.rx && Arrived(k.r.rx[id]) ensures exists j :: Acknowledged(k, id, j) {
      var j :| Acknowledged(l, id, j);
      assert l.back[0] != AckMsg(id, true);
      assert AckMsg(id, true) in l.back ==> AckMsg(id, true) in l.back[1..];
      assert Acknowledged(k, id, j);
    }
  }

  /** A verdict that arrives finds its transfer listed, or already reported. */
  lemma VerdictCloses(digest: Digest, l: Link, step: Step)
    requires Closing(l) && Enabled(l, step) && step.ReceiveAck?
    ensures Closing(Next(digest, l, step))
  {
    var k, m := Next(digest, l, step), l.back[0];
    assert forall id :: HasTask(l.s, id) ==> HasTask(k.s, id);
    forall id | id in k.r.rx && Arrived(k.r.rx[id]) ensures exists j :: Acknowledged(k, id, j) {
      var j :| Acknowledged(l, id, j);
      assert AckMsg(id, true) in l.back && m != AckMsg(id, true) ==> AckMsg(id, true) in l.back[1..];
      assert Acknowledged(k, id, j);
    }
  }

  lemma StepCloses(digest: Digest, l: Link, step: Step)
    requires Proceeds(digest, l, step) && Closing(l)
    ensures Closing(Next(digest, l, step))
  {
    if step.ReceiveData? || step.ReceiveDone? {
      DeliveryCloses(digest, l, step);
    } else {
      GoodIsSound(digest, l);
      if step.ReceiveAnswer? {
        AnswerCloses(digest, l, step);
      } else if step.ReceiveAck? {
        VerdictCloses(digest, l, step);
      } else if step.Rename? {
        RenameCloses(digest, l, step);
      } else if step.Reorder? || step.ReorderBack? {
        ReorderCloses(digest, l, step);
      } else if step.TaskSends? || step.TaskDone? || step.TaskGetsAck? {
        StreamCloses(digest, l, step);
      } else {
        OfferCloses(digest, l, step);
      }
    }
  }

  // ---- Which transfers complete ---------------------------------------------------------------------------

  /** The accept of id was handled while the offer was listed. */
  ghost predicate StartedBy(trace: seq<Link>, steps: seq<Step>, n: nat, id: Id)
    requires n <= |steps| < |trace|
  {
    exists k :: 0 <= k < n && Starts(trace[k], steps[k], id)
  }

  ghost predicate Starts(l: Link, step: Step, id: Id) {
    step.ReceiveAnswer? && l.back != [] && l.back[0] == AcceptMsg(id) && IsListed(l.s, id)
  }

  lemma TaskStarts(digest: Digest, l: Link, step: Step, id: Id)
    requires Enabled(l, step)
    ensures HasTask(Next(digest, l, step).s, id) <==> HasTask(l.s, id) || Starts(l, step, id)
  {
    var k := Next(digest, l, step);
    assert forall i :: 0 <= i < |l.s.tasks| ==> k.s.tasks[i].id == l.s.tasks[i].id;
    if Starts(l, step, id) { assert k.s.tasks[|l.s.tasks|].id == id; }
    if HasTask(l.s, id) {
      var i :| 0 <= i < |l.s.tasks| && l.s.tasks[i].id == id;
      assert k.s.tasks[i].id == id;
    }
  }

  lemma {:induction false} HasTaskExactly(digest: Digest, trace: seq<Link>, steps: seq<Step>, n: nat, id: Id)
    requires Execution(digest, trace, steps) && Initial(trace[0]) && n <= |steps|
    ensures HasTask(trace[n].s, id) <==> StartedBy(trace, steps, n, id)
  {
    if n > 0 {
      HasTaskExactly(digest, trace, steps, n - 1, id);
      assert Enabled(trace[n - 1], steps[n - 1]) && trace[n - 1 + 1] == Next(digest, trace[n - 1], steps[n - 1]);
      TaskStarts(digest, trace[n - 1], steps[n - 1], id);
    }
  }

  lemma {:induction false} AlwaysClosing(digest: Digest, trace: seq<Link>, steps: seq<Step>, n: nat)
    requires CollisionFree(digest) && Execution(digest, trace, steps) && Initial(trace[0]) && n < |trace|
    requires forall i :: 0 <= i < |steps| ==> Orderly(trace[i], steps[i])
    ensures Closing(trace[n])
  {
    if n > 0 {
      var m := n - 1;
      AlwaysClosing(digest, trace, steps, m);
      NoSpuriousFailure(digest, trace, steps, m);
      assert Enabled(trace[m], steps[m]) && Orderly(trace[m], steps[m])
        && trace[m + 1] == Next(digest, trace[m], steps[m]);
      StepCloses(digest, trace[m], steps[m]);
    }
  }

  /** A transfer that still waits for bytes, none of them on their way, has a task
    * that still sends. */
  lemma StillToSend(l: Link, i: nat)
    requires TasksOk(l) && AllConserved(l) && l.fwd == [] && i < |l.s.tasks|
    ensures IsIncoming(l.r, l.s.tasks[i].id) ==> l.s.tasks[i].phase == Streaming
  {
    var id := l.s.tasks[i].id;
    if IsIncoming(l.r, id) {
      assert Conserved(l, id);
      assert Flight(l.fwd, id) + Unsent(l.s.tx[id].file, l.s.tasks[i]) == Unsent(l.s.tx[id].file, l.s.tasks[i]);
    }
  }

  /** With nothing left to do, a transfer that has a task is stored and reported. */
  lemma StillMeansStored(digest: Digest, l: Link, i: nat)
    requires Good(digest, l) && Closing(l) && Still(l) && i < |l.s.tasks|
    ensures var id := l.s.tasks[i].id; id in l.r.rx && l.r.rx[id].Stored? && (id, true) in l.s.reports
  {
    var id := l.s.tasks[i].id;
    GoodIsSound(digest, l);
    StillToSend(l, i);
    assert l.r.rx[id].Stored?;
    var j :| Acknowledged(l, id, j);
  }

  lemma StillWithoutTask(digest: Digest, l: Link, id: Id)
    requires Good(digest, l) && Closing(l) && Still(l) && id in l.r.rx && !HasTask(l.s, id)
    ensures l.r.rx[id].Refused? || (IsIncoming(l.r, id) && l.r.rx[id].bytesReceived == 0)
    ensures (id, true) !in l.s.reports && (IsIncoming(l.r, id) ==> (id, false) !in l.s.reports)
  {
    forall i | Acknowledged(l, id, i) ensures HasTask(l.s, id) {}
    if IsIncoming(l.r, id) { assert Conserved(l, id); }
  }

  /** In every orderly execution, once nothing is left to do, exactly the
    * transfers whose accept was handled while their offer was listed are stored
    * and reported complete, and their files are in place. Every other was
    * refused, or waits for its first byte and is never reported. */
  lemma Completion(digest: Digest, trace: seq<Link>, steps: seq<Step>, n: nat, id: Id)
    requires CollisionFree(digest) && Execution(digest, trace, steps) && Initial(trace[0]) && n < |trace|
    requires forall i :: 0 <= i < |steps| ==> Orderly(trace[i], steps[i])
    requires Quiescent(trace[n]) && id in trace[n].r.rx
    ensures var l, started := trace[n], StartedBy(trace, steps, n, id); var x := l.r.rx[id];
            && (x.Stored? <==> started) && ((id, true) in l.s.reports <==> started)
            && (started ==> id in l.s.tx && StoredFile(l.r, x) == Some(l.s.tx[id].file))
            && (!started ==> x.Refused? || (x.Incoming? && x.bytesReceived == 0 && (id, false) !in l.s.reports))
  {
    var l := trace[n];
    NoSpuriousFailure(digest, trace, steps, n);
    AlwaysClosing(digest, trace, steps, n);
    QuiescentExactly(l);
    HasTaskExactly(digest, trace, steps, n, id);
    if HasTask(l.s, id) {
      var i :| 0 <= i < |l.s.tasks| && l.s.tasks[i].id == id;
      StillMeansStored(digest, l, i);
      assert Staged(l.r, l.r.rx[id], l.s.tx[id].file);
    } else {
      StillWithoutTask(digest, l, id);
    }
  }

  /** The bytes at the destination of a stored transfer. */
  function StoredFile(r: Receiver, x: Rx): Option<Bytes> {
    if x.Stored? && x.dest in r.names && r.names[x.dest] < |r.nodes| then Some(r.nodes[r.names[x.dest]]) else None
  }
}
