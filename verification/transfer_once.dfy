/** Each transfer is resolved at most once on either side, in every
  * interleaving of transfers over channels that may break. */
module TransferOnce {
  import opened FileReceivers
  import opened TransferSessions

  // ---- The receiving side -----------------------------------------------------------------------------

  /** Each offer on its way is the only one for its id and not yet seen. */
  ghost predicate OffersOnce(l: Link) {
    && (forall i, j :: 0 <= i < j < |l.fwd| && l.fwd[i].OfferMsg? && l.fwd[j].OfferMsg? ==> l.fwd[i].id != l.fwd[j].id)
    && (forall i :: 0 <= i < |l.fwd| && l.fwd[i].OfferMsg? ==> l.fwd[i].id in l.s.tx && l.fwd[i].id !in l.r.rx)
    && (forall id :: id in l.r.rx ==> id in l.s.tx)
  }

  ghost predicate DistinctIds(reports: seq<(Id, bool)>) {
    forall i, j :: 0 <= i < j < |reports| ==> reports[i].0 != reports[j].0
  }

  ghost predicate ResolvedOnce(r: Receiver) {
    && DistinctIds(r.resolved)
    && forall i :: 0 <= i < |r.resolved| ==>
         r.resolved[i].0 in r.rx && (r.rx[r.resolved[i].0].Resolved? || r.rx[r.resolved[i].0].Stored?)
  }

  /** Where an exchanged message came from. */
  function Origin(p: nat, i: nat): nat { if i == p then p + 1 else if i == p + 1 then p else i }

  lemma ExchangedOnce(l: Link, k: Link, p: nat)
    requires OffersOnce(l) && p + 1 < |l.fwd| && k.fwd == Exchanged(l.fwd, p) && k.s == l.s && k.r == l.r
    ensures OffersOnce(k)
  {
    forall i, j | 0 <= i < j < |k.fwd| && k.fwd[i].OfferMsg? && k.fwd[j].OfferMsg? ensures k.fwd[i].id != k.fwd[j].id {
      var a, b := Origin(p, i), Origin(p, j);
      assert k.fwd[i] == l.fwd[a] && k.fwd[j] == l.fwd[b] && a != b;
    }
  }

  lemma KeptOnce(l: Link, k: Link, n: nat)
    requires OffersOnce(l) && n <= |l.fwd| && k.fwd == l.fwd[..n]
    requires l.s.tx.Keys <= k.s.tx.Keys && k.r.rx.Keys == l.r.rx.Keys
    ensures OffersOnce(k)
  {}

  lemma PushedOnce(l: Link, k: Link, m: Fwd)
    requires OffersOnce(l) && k.fwd == l.fwd + [m] && l.s.tx.Keys <= k.s.tx.Keys && k.r.rx.Keys == l.r.rx.Keys
    requires m.OfferMsg? ==> m.id !in l.s.tx && m.id in k.s.tx
    ensures OffersOnce(k)
  {
    assert forall i :: 0 <= i < |l.fwd| ==> k.fwd[i] == l.fwd[i];
  }

  lemma PoppedOnce(l: Link, k: Link)
    requires OffersOnce(l) && l.fwd != [] && k.fwd == l.fwd[1..] && k.s == l.s
    requires k.r.rx.Keys == if l.fwd[0].OfferMsg? then l.r.rx.Keys + {l.fwd[0].id} else l.r.rx.Keys
    ensures OffersOnce(k)
  {
    assert forall i :: 0 <= i < |k.fwd| ==> k.fwd[i] == l.fwd[i + 1];
  }

  lemma ReadKeepsOffersOnce(digest: Digest, l: Link, step: Step)
    requires OffersOnce(l) && Enabled(l, step) && (step.ReceiveOffer? || step.ReceiveData? || step.ReceiveDone?)
    ensures OffersOnce(Next(digest, l, step))
  {
    PoppedOnce(l, Next(digest, l, step));
  }

  lemma SentKeepsOffersOnce(digest: Digest, l: Link, step: Step)
    requires OffersOnce(l) && Enabled(l, step) && (step.Offer? || step.TaskSends? || step.TaskDone?) && step.ok
    ensures OffersOnce(Next(digest, l, step))
  {
    var k := Next(digest, l, step);
    PushedOnce(l, k, k.fwd[|l.fwd|]);
  }

  lemma OtherKeepsOffersOnce(digest: Digest, l: Link, step: Step)
    requires OffersOnce(l) && Enabled(l, step) && !step.ReceiveOffer? && !step.ReceiveData? && !step.ReceiveDone?
    requires !step.Reorder? && !((step.Offer? || step.TaskSends? || step.TaskDone?) && step.ok)
    ensures OffersOnce(Next(digest, l, step))
  {
    assert l.fwd[..|l.fwd|] == l.fwd;
    KeptOnce(l, Next(digest, l, step), if step.Break? then step.keepFwd else |l.fwd|);
  }

  lemma StepKeepsOffersOnce(digest: Digest, l: Link, step: Step)
    requires OffersOnce(l) && Enabled(l, step)
    ensures OffersOnce(Next(digest, l, step))
  {
    if step.Reorder? {
      ExchangedOnce(l, Next(digest, l, step), step.p);
    } else if step.ReceiveOffer? || step.ReceiveData? || step.ReceiveDone? {
      ReadKeepsOffersOnce(digest, l, step);
    } else if (step.Offer? || step.TaskSends? || step.TaskDone?) && step.ok {
      SentKeepsOffersOnce(digest, l, step);
    } else {
      OtherKeepsOffersOnce(digest, l, step);
    }
  }

  predicate Settled(x: Rx) { x.Resolved? || x.Stored? }

  lemma SameResolved(r: Receiver, q: Receiver)
    requires ResolvedOnce(r) && q.resolved == r.resolved
    requires forall id :: id in r.rx && Settled(r.rx[id]) ==> id in q.rx && q.rx[id] == r.rx[id]
    ensures ResolvedOnce(q)
  {}

  lemma MoreResolved(r: Receiver, q: Receiver, id: Id, success: bool)
    requires ResolvedOnce(r) && q.resolved == r.resolved + [(id, success)]
    requires id in r.rx && !Settled(r.rx[id]) && id in q.rx && Settled(q.rx[id]) && q.rx == r.rx[id := q.rx[id]]
    ensures ResolvedOnce(q)
  {}

  lemma ReceiverKeepsResolved(digest: Digest, l: Link, step: Step)
    requires OffersOnce(l) && ResolvedOnce(l.r) && Enabled(l, step)
    requires step.ReceiveOffer? || step.Decide? || step.Rename?
    ensures ResolvedOnce(Next(digest, l, step).r)
  {
    var q := Next(digest, l, step).r;
    if q.resolved != l.r.resolved {
      MoreResolved(l.r, q, step.id, l.r.rx[step.id].success);
    } else {
      SameResolved(l.r, q);
    }
  }

  lemma DeliveryKeepsResolved(digest: Digest, l: Link, step: Step)
    requires ResolvedOnce(l.r) && Enabled(l, step) && (step.ReceiveData? || step.ReceiveDone?)
    ensures ResolvedOnce(Next(digest, l, step).r)
  {
    var q := Next(digest, l, step).r;
    if step.ReceiveData? && q.resolved != l.r.resolved {
      MoreResolved(l.r, q, l.fwd[0].id, false);
    } else {
      SameResolved(l.r, q);
    }
  }

  lemma StepKeepsResolvedOnce(digest: Digest, l: Link, step: Step)
    requires OffersOnce(l) && ResolvedOnce(l.r) && Enabled(l, step)
    ensures ResolvedOnce(Next(digest, l, step).r)
  {
    if step.ReceiveOffer? || step.Decide? || step.Rename? {
      ReceiverKeepsResolved(digest, l, step);
    } else if step.ReceiveData? || step.ReceiveDone? {
      DeliveryKeepsResolved(digest, l, step);
    } else {
      assert Next(digest, l, step).r == l.r;
    }
  }

  // ---- The sending side --------------------------------------------------------------------------------

  predicate IsAnswer(m: Back) { !m.AckMsg? }

  ghost predicate Answered(l: Link, id: Id) { id in l.r.rx && !l.r.rx[id].Asked? }

  /** Each answer on its way is the only one for its id, and nothing has
    * come of it yet. */
  ghost predicate AnswersOnce(l: Link) {
    && (forall i, j :: 0 <= i < j < |l.back| && IsAnswer(l.back[i]) && IsAnswer(l.back[j]) ==>
      l.back[i].id != l.back[j].id)
    && (forall i :: 0 <= i < |l.back| && IsAnswer(l.back[i]) ==> Unused(l, l.back[i].id))
  }

  ghost predicate Unused(l: Link, id: Id) {
    && Answered(l, id)
    && (forall t :: 0 <= t < |l.s.tasks| ==> l.s.tasks[t].id != id)
    && (forall p :: 0 <= p < |l.s.reports| ==> l.s.reports[p].0 != id)
  }

  /** One task per transfer, which has ended by the time it is reported. */
  ghost predicate TasksOnce(l: Link) {
    && (forall i, j :: 0 <= i < j < |l.s.tasks| ==> l.s.tasks[i].id != l.s.tasks[j].id)
    && (forall i :: 0 <= i < |l.s.tasks| ==> Answered(l, l.s.tasks[i].id))
    && DistinctIds(l.s.reports)
    && (forall p :: 0 <= p < |l.s.reports| ==> Answered(l, l.s.reports[p].0))
    && (forall p, i :: 0 <= p < |l.s.reports| && 0 <= i < |l.s.tasks| && l.s.tasks[i].id == l.s.reports[p].0
          ==> l.s.tasks[i].phase == Ended)
  }

  ghost predicate Once(l: Link) {
    OffersOnce(l) && ResolvedOnce(l.r) && AnswersOnce(l) && TasksOnce(l)
  }

  /** Answers are only ever added to the set of answered transfers. */
  lemma AnsweredStays(digest: Digest, l: Link, step: Step, id: Id)
    requires OffersOnce(l) && Enabled(l, step) && Answered(l, id)
    ensures Answered(Next(digest, l, step), id)
  {}

  /** Nothing is answered, started or reported. */
  lemma QuietFrame(l: Link, k: Link)
    requires AnswersOnce(l) && TasksOnce(l) && |k.s.tasks| == |l.s.tasks| && k.s.reports == l.s.reports
    requires forall id :: Answered(l, id) ==> Answered(k, id)
    requires forall i :: 0 <= i < |k.s.tasks| ==> k.s.tasks[i].id == l.s.tasks[i].id
    requires forall i :: 0 <= i < |k.s.tasks| && l.s.tasks[i].phase == Ended ==> k.s.tasks[i].phase == Ended
    requires || (l.back != [] && k.back == l.back[1..])
             || (exists n, out :: 0 <= n <= |l.back| && k.back == l.back[..n] + out
                                  && forall i :: 0 <= i < |out| ==> !IsAnswer(out[i]))
    ensures AnswersOnce(k) && TasksOnce(k)
  {
    forall id | Unused(l, id) ensures Unused(k, id) {}
    if l.back != [] && k.back == l.back[1..] {
      assert forall i :: 0 <= i < |k.back| ==> k.back[i] == l.back[i + 1];
    } else {
      var n, out :| 0 <= n <= |l.back| && k.back == l.back[..n] + out
                    && forall i :: 0 <= i < |out| ==> !IsAnswer(out[i]);
      assert forall i :: 0 <= i < n ==> k.back[i] == l.back[i];
    }
  }

  lemma SameBack(l: Link, k: Link, out: seq<Back>)
    requires k.back == l.back + out && forall i :: 0 <= i < |out| ==> !IsAnswer(out[i])
    ensures exists n, o :: 0 <= n <= |l.back| && k.back == l.back[..n] + o
                           && forall i :: 0 <= i < |o| ==> !IsAnswer(o[i])
  {
    assert k.back == l.back[..|l.back|] + out;
  }

  lemma QuietKeepsOnce(digest: Digest, l: Link, step: Step)
    requires Once(l) && Enabled(l, step)
    requires step.Offer? || step.List? || step.ReceiveAck? || step.Rename? || step.TaskDone?
             || (step.TaskSends? && step.ok) || (step.ReceiveOffer? && !step.refuse)
    ensures AnswersOnce(Next(digest, l, step)) && TasksOnce(Next(digest, l, step))
  {
    var k := Next(digest, l, step);
    forall id | Answered(l, id) ensures Answered(k, id) { AnsweredStays(digest, l, step, id); }
    if !step.ReceiveAck? {
      assert l.back + [] == l.back;
      SameBack(l, k, []);
    }
    QuietFrame(l, k);
  }

  lemma DeliveryKeepsOnce(digest: Digest, l: Link, step: Step)
    requires Once(l) && Enabled(l, step) && (step.ReceiveData? || step.ReceiveDone? || step.Break?)
    ensures AnswersOnce(Next(digest, l, step)) && TasksOnce(Next(digest, l, step))
  {
    var k := Next(digest, l, step);
    forall id | Answered(l, id) ensures Answered(k, id) { AnsweredStays(digest, l, step, id); }
    if step.Break? {
      assert k.back == l.back[..step.keepBack] + [];
    } else {
      var out := if step.ReceiveData? then HandleChunk(l.r, l.fwd[0]).1 else HandleDone(digest, l.r, l.fwd[0].id).1;
      assert l.back + [] == l.back;
      SameBack(l, k, if step.ok then out else []);
    }
    QuietFrame(l, k);
  }

  /** An answer is sent for a transfer that had none. */
  lemma AnswerKeepsOnce(digest: Digest, l: Link, step: Step)
    requires Once(l) && Enabled(l, step) && (step.Decide? || (step.ReceiveOffer? && step.refuse))
    ensures AnswersOnce(Next(digest, l, step)) && TasksOnce(Next(digest, l, step))
  {
    var k := Next(digest, l, step);
    var id := if step.Decide? then step.id else l.fwd[0].id;
    forall d | Answered(l, d) ensures Answered(k, d) { AnsweredStays(digest, l, step, d); }
    assert k.s == l.s && !Answered(l, id) && Answered(k, id);
    assert Unused(k, id);
    forall d | Unused(l, d) ensures Unused(k, d) {}
    assert forall i :: 0 <= i < |l.back| ==> k.back[i] == l.back[i];
    assert forall i :: |l.back| <= i < |k.back| ==> k.back[i].id == id;
  }

  /** An answer arrives and starts a task, or is reported, or is ignored. */
  lemma ReceiveAnswerKeepsOnce(digest: Digest, l: Link, step: Step)
    requires Once(l) && Enabled(l, step) && step.ReceiveAnswer?
    ensures AnswersOnce(Next(digest, l, step)) && TasksOnce(Next(digest, l, step))
  {
    var k, id := Next(digest, l, step), l.back[0].id;
    assert Unused(l, id);
    assert forall i :: 0 <= i < |k.back| ==> k.back[i] == l.back[i + 1];
    assert k.r == l.r;
    forall d | Unused(l, d) && d != id ensures Unused(k, d) {}
  }

  /** A task ends and is reported. */
  lemma EndTaskKeepsOnce(l: Link, k: Link, i: nat, success: bool)
    requires AnswersOnce(l) && TasksOnce(l) && i < |l.s.tasks| && l.s.tasks[i].phase != Ended
    requires k.r == l.r && k.back == l.back
    requires k.s.tasks == l.s.tasks[i := l.s.tasks[i].(phase := Ended)]
    requires k.s.reports == l.s.reports + [(l.s.tasks[i].id, success)]
    ensures AnswersOnce(k) && TasksOnce(k)
  {}

  lemma EndKeepsOnce(digest: Digest, l: Link, step: Step)
    requires Once(l) && Enabled(l, step)
    requires step.TaskGetsAck? || step.TaskGivesUp? || (step.TaskSends? && !step.ok)
    ensures AnswersOnce(Next(digest, l, step)) && TasksOnce(Next(digest, l, step))
  {
    var success := step.TaskGetsAck? && l.s.tx[l.s.tasks[step.i].id].ackSuccess;
    EndTaskKeepsOnce(l, Next(digest, l, step), step.i, success);
  }

  lemma ReorderKeepsOnce(digest: Digest, l: Link, step: Step)
    requires Once(l) && Enabled(l, step) && (step.Reorder? || step.ReorderBack?)
    ensures AnswersOnce(Next(digest, l, step)) && TasksOnce(Next(digest, l, step))
  {
    var k := Next(digest, l, step);
    assert k.s == l.s && k.r == l.r;
    forall id | Unused(l, id) ensures Unused(k, id) {}
    if step.ReorderBack? {
      forall i, j | 0 <= i < j < |k.back| && IsAnswer(k.back[i]) && IsAnswer(k.back[j])
        ensures k.back[i].id != k.back[j].id
      {
        var a, b := Origin(step.p, i), Origin(step.p, j);
        assert k.back[i] == l.back[a] && k.back[j] == l.back[b] && a != b;
      }
      forall i | 0 <= i < |k.back| && IsAnswer(k.back[i]) ensures Unused(k, k.back[i].id) {
        assert k.back[i] == l.back[Origin(step.p, i)];
      }
    }
  }

  lemma StepKeepsOnce(digest: Digest, l: Link, step: Step)
    requires Once(l) && Enabled(l, step)
    ensures Once(Next(digest, l, step))
  {
    StepKeepsOffersOnce(digest, l, step);
    StepKeepsResolvedOnce(digest, l, step);
    if step.Decide? || (step.ReceiveOffer? && step.refuse) {
      AnswerKeepsOnce(digest, l, step);
    } else if step.ReceiveAnswer? {
      ReceiveAnswerKeepsOnce(digest, l, step);
    } else if step.TaskGetsAck? || step.TaskGivesUp? || (step.TaskSends? && !step.ok) {
      EndKeepsOnce(digest, l, step);
    } else if step.Reorder? || step.ReorderBack? {
      ReorderKeepsOnce(digest, l, step);
    } else if step.ReceiveData? || step.ReceiveDone? || step.Break? {
      DeliveryKeepsOnce(digest, l, step);
    } else {
      QuietKeepsOnce(digest, l, step);
    }
  }

  /** In every execution each transfer id is reported complete at most once by
    * the sender and at most once by the receiver. */
  lemma {:induction false} ResolvedAtMostOnce(digest: Digest, trace: seq<Link>, steps: seq<Step>, n: nat)
    requires Execution(digest, trace, steps) && Initial(trace[0]) && n < |trace|
    ensures Once(trace[n])
    ensures DistinctIds(trace[n].s.reports) && DistinctIds(trace[n].r.resolved)
  {
    if n > 0 {
      ResolvedAtMostOnce(digest, trace, steps, n - 1);
      assert Enabled(trace[n - 1], steps[n - 1]) && trace[n - 1 + 1] == Next(digest, trace[n - 1], steps[n - 1]);
      StepKeepsOnce(digest, trace[n - 1], steps[n - 1]);
    }
  }
}
