/** A sending session lists a transfer until it reports it, in every
  * interleaving of transfers over channels that may break. */
module TransferListing {
  import opened FileReceivers
  import opened TransferSessions
  import opened TransferOnce

  ghost predicate Reported(s: Sender, id: Id) { exists p :: 0 <= p < |s.reports| && s.reports[p].0 == id }

  predicate Left(s: Sender, id: Id) { id in s.tx && s.tx[id].listing == Unlisted }

  /** The offer got lost while it was sent. */
  ghost predicate NeverOffered(l: Link, id: Id) {
    id !in l.r.rx && forall i :: 0 <= i < |l.fwd| && l.fwd[i].OfferMsg? ==> l.fwd[i].id != id
  }

  /** What is reported has left the table, and what has left it was reported or
    * never offered; a task runs as long as its transfer is listed. */
  ghost predicate Listing(l: Link) {
    && (forall id :: Reported(l.s, id) ==> Left(l.s, id))
    && (forall id :: Left(l.s, id) ==> Reported(l.s, id) || NeverOffered(l, id))
    && (forall i :: 0 <= i < |l.s.tasks| ==>
          if l.s.tasks[i].phase == Ended then Left(l.s, l.s.tasks[i].id) else IsListed(l.s, l.s.tasks[i].id))
  }

  /** Nothing is reported or leaves. */
  lemma QuietListing(l: Link, k: Link)
    requires Listing(l) && k.s.reports == l.s.reports
    requires forall id :: Left(k.s, id) <==> Left(l.s, id)
    requires forall id :: Left(l.s, id) && NeverOffered(l, id) ==> NeverOffered(k, id)
    requires forall id :: IsListed(l.s, id) ==> IsListed(k.s, id)
    requires |k.s.tasks| == |l.s.tasks|
    requires forall i :: 0 <= i < |k.s.tasks| ==>
               k.s.tasks[i].id == l.s.tasks[i].id && (k.s.tasks[i].phase == Ended <==> l.s.tasks[i].phase == Ended)
    ensures Listing(k)
  {
    forall id ensures Reported(k.s, id) <==> Reported(l.s, id) {}
    forall i | 0 <= i < |k.s.tasks|
      ensures if k.s.tasks[i].phase == Ended then Left(k.s, k.s.tasks[i].id) else IsListed(k.s, k.s.tasks[i].id)
    {
      assert k.s.tasks[i].id == l.s.tasks[i].id;
    }
  }

  /** A listed transfer is reported and leaves, and its task, if it has one, ends. */
  lemma SettledListing(l: Link, k: Link, id: Id, success: bool)
    requires Listing(l) && IsListed(l.s, id) && k.fwd == l.fwd && k.r == l.r
    requires k.s.reports == l.s.reports + [(id, success)]
    requires k.s.tx == l.s.tx[id := l.s.tx[id].(listing := Unlisted)] && |k.s.tasks| == |l.s.tasks|
    requires forall i :: 0 <= i < |k.s.tasks| ==>
               && k.s.tasks[i].id == l.s.tasks[i].id
               && (k.s.tasks[i].phase == Ended <==> l.s.tasks[i].phase == Ended || l.s.tasks[i].id == id)
    ensures Listing(k)
  {
    forall d ensures Reported(k.s, d) <==> Reported(l.s, d) || d == id {
      assert k.s.reports[|l.s.reports|].0 == id;
      if Reported(l.s, d) {
        var p :| 0 <= p < |l.s.reports| && l.s.reports[p].0 == d;
        assert k.s.reports[p].0 == d;
      }
    }
    forall d ensures Left(k.s, d) <==> Left(l.s, d) || d == id {}
    forall i | 0 <= i < |k.s.tasks|
      ensures if k.s.tasks[i].phase == Ended then Left(k.s, k.s.tasks[i].id) else IsListed(k.s, k.s.tasks[i].id)
    {
      assert k.s.tasks[i].id == l.s.tasks[i].id;
    }
  }

  lemma OfferKeepsListing(digest: Digest, l: Link, step: Step)
    requires Once(l) && Listing(l) && Enabled(l, step) && step.Offer?
    ensures Listing(Next(digest, l, step))
  {
    var k := Next(digest, l, step);
    forall id ensures Reported(k.s, id) <==> Reported(l.s, id) {}
    assert !Left(l.s, step.id) && NeverOffered(l, step.id);
    forall id | id != step.id ensures Left(k.s, id) <==> Left(l.s, id) {}
    forall id | Left(l.s, id) && NeverOffered(l, id) ensures NeverOffered(k, id) {}
  }

  lemma AnswerKeepsListing(digest: Digest, l: Link, step: Step)
    requires Once(l) && Listing(l) && Enabled(l, step) && step.ReceiveAnswer?
    ensures Listing(Next(digest, l, step))
  {
    var k, id := Next(digest, l, step), l.back[0].id;
    assert Unused(l, id);
    if !IsListed(l.s, id) {
      QuietListing(l, k);
    } else if l.back[0].RejectMsg? {
      SettledListing(l, k, id, false);
    } else {
      forall d ensures Reported(k.s, d) <==> Reported(l.s, d) {}
    }
  }

  lemma EndKeepsListing(digest: Digest, l: Link, step: Step)
    requires Once(l) && Listing(l) && Enabled(l, step)
    requires step.TaskGetsAck? || step.TaskGivesUp? || (step.TaskSends? && !step.ok)
    ensures Listing(Next(digest, l, step))
  {
    var id := l.s.tasks[step.i].id;
    SettledListing(l, Next(digest, l, step), id, step.TaskGetsAck? && l.s.tx[id].ackSuccess);
  }

  lemma ReadKeepsListing(digest: Digest, l: Link, step: Step)
    requires Once(l) && Listing(l) && Enabled(l, step) && (step.ReceiveOffer? || step.ReceiveData? || step.ReceiveDone?)
    ensures Listing(Next(digest, l, step))
  {
    var k := Next(digest, l, step);
    assert forall i :: 0 <= i < |k.fwd| ==> k.fwd[i] == l.fwd[i + 1];
    QuietListing(l, k);
  }

  lemma TransitKeepsListing(digest: Digest, l: Link, step: Step)
    requires Listing(l) && Enabled(l, step) && (step.Break? || step.Reorder? || step.ReorderBack?)
    ensures Listing(Next(digest, l, step))
  {
    var k := Next(digest, l, step);
    assert k.s == l.s && k.r == l.r;
    if step.Reorder? {
      assert forall i :: 0 <= i < |k.fwd| ==> k.fwd[i] == l.fwd[Origin(step.p, i)];
    } else {
      assert forall i :: 0 <= i < |k.fwd| ==> i < |l.fwd| && k.fwd[i] == l.fwd[i];
    }
    QuietListing(l, k);
  }

  lemma StreamKeepsListing(digest: Digest, l: Link, step: Step)
    requires Listing(l) && Enabled(l, step) && (step.TaskDone? || (step.TaskSends? && step.ok))
    ensures Listing(Next(digest, l, step))
  {
    var k := Next(digest, l, step);
    assert forall i :: 0 <= i < |k.fwd| && k.fwd[i].OfferMsg? ==> i < |l.fwd| && k.fwd[i] == l.fwd[i];
    QuietListing(l, k);
  }

  lemma OtherKeepsListing(digest: Digest, l: Link, step: Step)
    requires Listing(l) && Enabled(l, step) && (step.List? || step.Decide? || step.Rename? || step.ReceiveAck?)
    ensures Listing(Next(digest, l, step))
  {
    var k := Next(digest, l, step);
    assert k.fwd == l.fwd && l.r.rx.Keys == k.r.rx.Keys;
    QuietListing(l, k);
  }

  lemma StepKeepsListing(digest: Digest, l: Link, step: Step)
    requires Once(l) && Listing(l) && Enabled(l, step)
    ensures Listing(Next(digest, l, step))
  {
    if step.Offer? {
      OfferKeepsListing(digest, l, step);
    } else if step.ReceiveAnswer? {
      AnswerKeepsListing(digest, l, step);
    } else if step.TaskGetsAck? || step.TaskGivesUp? || (step.TaskSends? && !step.ok) {
      EndKeepsListing(digest, l, step);
    } else if step.ReceiveOffer? || step.ReceiveData? || step.ReceiveDone? {
      ReadKeepsListing(digest, l, step);
    } else if step.Break? || step.Reorder? || step.ReorderBack? {
      TransitKeepsListing(digest, l, step);
    } else if step.TaskDone? || step.TaskSends? {
      StreamKeepsListing(digest, l, step);
    } else {
      OtherKeepsListing(digest, l, step);
    }
  }

  lemma {:induction false} AlwaysListing(digest: Digest, trace: seq<Link>, steps: seq<Step>, n: nat)
    requires Execution(digest, trace, steps) && Initial(trace[0]) && n < |trace|
    ensures Listing(trace[n])
  {
    if n > 0 {
      AlwaysListing(digest, trace, steps, n - 1);
      ResolvedAtMostOnce(digest, trace, steps, n - 1);
      assert Enabled(trace[n - 1], steps[n - 1]) && trace[n - 1 + 1] == Next(digest, trace[n - 1], steps[n - 1]);
      StepKeepsListing(digest, trace[n - 1], steps[n - 1]);
    }
  }

  lemma LeftIsReported(l: Link, id: Id)
    requires Listing(l) && id in l.r.rx
    ensures Left(l.s, id) <==> Reported(l.s, id)
  {}

  lemma EndedIsReported(l: Link, i: nat)
    requires TasksOnce(l) && Listing(l) && i < |l.s.tasks|
    ensures l.s.tasks[i].phase == Ended <==> Reported(l.s, l.s.tasks[i].id)
  {
    assert Answered(l, l.s.tasks[i].id);
    LeftIsReported(l, l.s.tasks[i].id);
  }

  /** In every execution a transfer that reached the other side has left the
    * sender's table exactly when it was reported, and its task has ended exactly
    * then. */
  lemma ListedUntilReported(digest: Digest, trace: seq<Link>, steps: seq<Step>, n: nat)
    requires Execution(digest, trace, steps) && Initial(trace[0]) && n < |trace|
    ensures forall id :: id in trace[n].r.rx ==> (Left(trace[n].s, id) <==> Reported(trace[n].s, id))
    ensures forall i :: 0 <= i < |trace[n].s.tasks| ==>
              (trace[n].s.tasks[i].phase == Ended <==> Reported(trace[n].s, trace[n].s.tasks[i].id))
  {
    AlwaysListing(digest, trace, steps, n);
    ResolvedAtMostOnce(digest, trace, steps, n);
    var l := trace[n];
    forall id | id in l.r.rx ensures Left(l.s, id) <==> Reported(l.s, id) { LeftIsReported(l, id); }
    forall i | 0 <= i < |l.s.tasks| ensures l.s.tasks[i].phase == Ended <==> Reported(l.s, l.s.tasks[i].id) {
      EndedIsReported(l, i);
    }
  }
}
