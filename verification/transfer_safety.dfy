/** Safety of file transfers in every interleaving of any number of them, over
  * channels that may break at any time. */
module TransferSafety {
  import opened Bytes
  import opened FileReceivers
  import opened TransferSessions

  // ---- What was acknowledged was the offered file ------------------------------------------------------

  ghost predicate OfferMatches(digest: Digest, l: Link, id: Id, size: nat, checksum: string) {
    id in l.s.tx && size == |l.s.tx[id].file| && checksum == digest(l.s.tx[id].file)
  }

  ghost predicate RxMatches(digest: Digest, l: Link, id: Id) {
    id in l.r.rx ==>
      && id in l.s.tx
      && (l.r.rx[id].Asked? || l.r.rx[id].Incoming? ==>
        OfferMatches(digest, l, id, l.r.rx[id].size, l.r.rx[id].checksum))
  }

  /** Every positive acknowledgement, on its way, noted or reported, is for a
    * transfer whose staged bytes were exactly the offered file. */
  ghost predicate Verified(digest: Digest, l: Link) {
    && (forall m :: m in l.fwd && m.OfferMsg? ==> OfferMatches(digest, l, m.id, m.size, m.checksum))
    && (forall id :: RxMatches(digest, l, id))
    && (forall m :: m in l.back && m.AckMsg? && m.success ==> m.id in l.r.verified)
    && (forall id :: id in l.r.verified ==> id in l.s.tx && l.r.verified[id] == l.s.tx[id].file)
    && (forall id :: id in l.s.tx && l.s.tx[id].ackSuccess ==> id in l.r.verified)
    && (forall p :: p in l.s.reports && p.1 ==> p.0 in l.r.verified)
  }

  lemma Membership<T>(channel: seq<T>, out: seq<T>, ok: bool)
    ensures forall m :: m in Push(channel, out, ok) ==> m in channel || m in out
    ensures channel != [] ==> forall m :: m in channel[1..] ==> m in channel
  {}

  lemma PrefixMembership<T>(channel: seq<T>, k: nat)
    requires k <= |channel|
    ensures forall m :: m in channel[..k] ==> m in channel
  {}

  lemma ExchangedMembership<T>(channel: seq<T>, p: nat)
    requires p + 1 < |channel|
    ensures forall m :: m in Exchanged(channel, p) <==> m in channel
  {
    var e := Exchanged(channel, p);
    assert forall i :: 0 <= i < |e| ==> e[i] in channel;
    assert e[p] == channel[p + 1] && e[p + 1] == channel[p];
    forall i | 0 <= i < |channel| ensures channel[i] in e {
      if i != p && i != p + 1 { assert e[i] == channel[i]; }
    }
  }

  /** The parts of the invariant that a step must re-establish. */
  lemma Frame(digest: Digest, l: Link, k: Link)
    requires Verified(digest, l)
    requires forall id :: id in l.s.tx ==> id in k.s.tx && k.s.tx[id].file == l.s.tx[id].file
    requires forall id :: id in k.s.tx && k.s.tx[id].ackSuccess ==> id in k.r.verified
    requires forall m :: m in k.fwd && m.OfferMsg? ==> m in l.fwd || OfferMatches(digest, k, m.id, m.size, m.checksum)
    requires forall m :: m in k.back && m.AckMsg? && m.success ==> m in l.back || m.id in k.r.verified
    requires forall p :: p in k.s.reports && p.1 ==> p in l.s.reports || p.0 in k.r.verified
    requires forall id :: id in l.r.verified ==> id in k.r.verified
    requires forall id :: id in k.r.verified ==>
      (id in l.r.verified && k.r.verified[id] == l.r.verified[id])
        || (id in k.s.tx && k.r.verified[id] == k.s.tx[id].file)
    requires forall id :: id in k.r.rx ==> (id in l.r.rx && k.r.rx[id] == l.r.rx[id]) || RxMatches(digest, k, id)
    ensures Verified(digest, k)
  {
    forall id ensures RxMatches(digest, k, id) {
      assert RxMatches(digest, l, id);
    }
  }

  lemma OfferKeepsVerified(digest: Digest, l: Link, step: Step)
    requires Verified(digest, l) && Enabled(l, step) && (step.Offer? || step.List?)
    ensures Verified(digest, Next(digest, l, step))
  {
    if step.Offer? { Membership(l.fwd, [OfferMsg(step.id, step.filename, |step.file|, digest(step.file))], step.ok); }
    Frame(digest, l, Next(digest, l, step));
  }

  lemma StreamKeepsVerified(digest: Digest, l: Link, step: Step)
    requires Verified(digest, l) && Enabled(l, step) && ((step.TaskSends? && step.ok) || step.TaskDone?)
    ensures Verified(digest, Next(digest, l, step))
  {
    var t := l.s.tasks[step.i];
    var m := if step.TaskSends? then DataMsg(t.id, t.sequence, t.offset, step.data) else DoneMsg(t.id);
    Membership(l.fwd, [m], step.ok);
    Frame(digest, l, Next(digest, l, step));
  }

  lemma SettledVerified(digest: Digest, l: Link, k: Link, id: Id, success: bool)
    requires Verified(digest, l) && k.r == l.r && k.fwd == l.fwd && k.s.reports == l.s.reports + [(id, success)]
    requires forall m :: m in k.back ==> m in l.back
    requires forall x :: x in l.s.tx ==> x in k.s.tx && k.s.tx[x].file == l.s.tx[x].file
    requires forall x :: x in k.s.tx ==> x in l.s.tx && k.s.tx[x].ackSuccess == l.s.tx[x].ackSuccess
    requires success ==> id in l.r.verified
    ensures Verified(digest, k)
  {
    Frame(digest, l, k);
  }

  lemma EndKeepsVerified(digest: Digest, l: Link, step: Step)
    requires Verified(digest, l) && Enabled(l, step)
    requires step.TaskGivesUp? || step.TaskGetsAck? || (step.TaskSends? && !step.ok)
    ensures Verified(digest, Next(digest, l, step))
  {
    var id := l.s.tasks[step.i].id;
    SettledVerified(digest, l, Next(digest, l, step), id, step.TaskGetsAck? && l.s.tx[id].ackSuccess);
  }

  lemma AnswerArrives(digest: Digest, l: Link, step: Step)
    requires Verified(digest, l) && Enabled(l, step) && step.ReceiveAnswer?
    ensures Verified(digest, Next(digest, l, step))
  {
    var k := Next(digest, l, step);
    Membership(l.back, [], true);
    if k.s.reports != l.s.reports {
      SettledVerified(digest, l, k, l.back[0].id, false);
    } else {
      Frame(digest, l, k);
    }
  }

  lemma VerdictArrives(digest: Digest, l: Link, step: Step)
    requires Verified(digest, l) && Enabled(l, step) && step.ReceiveAck?
    ensures Verified(digest, Next(digest, l, step))
  {
    Membership(l.back, [], true);
    assert l.back[0] in l.back;
    Frame(digest, l, Next(digest, l, step));
  }

  lemma BreakKeepsVerified(digest: Digest, l: Link, step: Step)
    requires Verified(digest, l) && Enabled(l, step) && step.Break?
    ensures Verified(digest, Next(digest, l, step))
  {
    PrefixMembership(l.fwd, step.keepFwd);
    PrefixMembership(l.back, step.keepBack);
    Frame(digest, l, Next(digest, l, step));
  }

  lemma ReorderKeepsVerified(digest: Digest, l: Link, step: Step)
    requires Verified(digest, l) && Enabled(l, step) && (step.Reorder? || step.ReorderBack?)
    ensures Verified(digest, Next(digest, l, step))
  {
    if step.Reorder? { ExchangedMembership(l.fwd, step.p); } else { ExchangedMembership(l.back, step.p); }
    Frame(digest, l, Next(digest, l, step));
  }

  lemma AnswerKeepsVerified(digest: Digest, l: Link, step: Step)
    requires Verified(digest, l) && Enabled(l, step) && (step.ReceiveOffer? || step.Decide? || step.Rename?)
    ensures Verified(digest, Next(digest, l, step))
  {
    if step.ReceiveOffer? {
      Membership(l.fwd, [], true);
      assert l.fwd[0] in l.fwd;
      Membership(l.back, [RejectMsg(l.fwd[0].id)], step.ok);
    } else {
      assert RxMatches(digest, l, step.id);
      if step.Decide? { Membership(l.back, [if step.accept then AcceptMsg(step.id) else RejectMsg(step.id)], step.ok); }
    }
    Frame(digest, l, Next(digest, l, step));
  }

  lemma ChunkKeepsVerified(digest: Digest, l: Link, step: Step)
    requires Verified(digest, l) && Enabled(l, step) && step.ReceiveData?
    ensures Verified(digest, Next(digest, l, step))
  {
    Membership(l.fwd, [], true);
    assert RxMatches(digest, l, l.fwd[0].id);
    Membership(l.back, HandleChunk(l.r, l.fwd[0]).1, step.ok);
    Frame(digest, l, Next(digest, l, step));
  }

  lemma DoneKeepsVerified(digest: Digest, l: Link, step: Step)
    requires CollisionFree(digest) && Verified(digest, l) && Enabled(l, step) && step.ReceiveDone?
    ensures Verified(digest, Next(digest, l, step))
  {
    var id, out := l.fwd[0].id, HandleDone(digest, l.r, l.fwd[0].id).1;
    Membership(l.fwd, [], true);
    Membership(l.back, out, step.ok);
    if IsIncoming(l.r, id) && StagedAt(l.r, l.r.rx[id].dest).Some? {
      DoneVerified(digest, l, Next(digest, l, step), id);
    } else {
      assert RxMatches(digest, l, id);
      Frame(digest, l, Next(digest, l, step));
    }
  }

  lemma DoneVerified(digest: Digest, l: Link, k: Link, id: Id)
    requires CollisionFree(digest) && Verified(digest, l) && IsIncoming(l.r, id)
    requires StagedAt(l.r, l.r.rx[id].dest).Some? && k.r == HandleDone(digest, l.r, id).0 && k.s == l.s
    requires forall m :: m in k.fwd ==> m in l.fwd
    requires forall m :: m in k.back ==> m in l.back || m in HandleDone(digest, l.r, id).1
    ensures Verified(digest, k)
  {
    assert RxMatches(digest, l, id);
    SameDigest(digest, StagedAt(l.r, l.r.rx[id].dest).value, l.s.tx[id].file);
    Frame(digest, l, k);
  }

  lemma SameDigest(digest: Digest, x: Bytes, y: Bytes)
    requires CollisionFree(digest)
    ensures digest(x) == digest(y) ==> x == y
  {}

  lemma StepKeepsVerified(digest: Digest, l: Link, step: Step)
    requires CollisionFree(digest) && Verified(digest, l) && Enabled(l, step)
    ensures Verified(digest, Next(digest, l, step))
  {
    if step.Offer? || step.List? {
      OfferKeepsVerified(digest, l, step);
    } else if (step.TaskSends? && step.ok) || step.TaskDone? {
      StreamKeepsVerified(digest, l, step);
    } else if step.TaskSends? || step.TaskGivesUp? || step.TaskGetsAck? {
      EndKeepsVerified(digest, l, step);
    } else if step.ReceiveAnswer? {
      AnswerArrives(digest, l, step);
    } else if step.ReceiveAck? {
      VerdictArrives(digest, l, step);
    } else if step.Break? {
      BreakKeepsVerified(digest, l, step);
    } else if step.ReceiveData? {
      ChunkKeepsVerified(digest, l, step);
    } else if step.ReceiveDone? {
      DoneKeepsVerified(digest, l, step);
    } else if step.Reorder? || step.ReorderBack? {
      ReorderKeepsVerified(digest, l, step);
    } else {
      AnswerKeepsVerified(digest, l, step);
    }
  }

  lemma {:induction false} AlwaysVerified(digest: Digest, trace: seq<Link>, steps: seq<Step>, n: nat)
    requires CollisionFree(digest) && Execution(digest, trace, steps) && Initial(trace[0]) && n < |trace|
    ensures Verified(digest, trace[n])
  {
    if n > 0 {
      AlwaysVerified(digest, trace, steps, n - 1);
      assert Enabled(trace[n - 1], steps[n - 1]) && trace[n - 1 + 1] == Next(digest, trace[n - 1], steps[n - 1]);
      StepKeepsVerified(digest, trace[n - 1], steps[n - 1]);
    }
  }

  /** A sender reports success only for a transfer whose bytes, staged at the
    * receiver when it acknowledged, were the file as it was offered. */
  lemma SuccessMeansDelivered(digest: Digest, trace: seq<Link>, steps: seq<Step>, n: nat, id: Id)
    requires CollisionFree(digest) && Execution(digest, trace, steps) && Initial(trace[0]) && n < |trace|
    requires (id, true) in trace[n].s.reports
    ensures id in trace[n].s.tx && id in trace[n].r.verified
    ensures trace[n].r.verified[id] == trace[n].s.tx[id].file
  {
    AlwaysVerified(digest, trace, steps, n);
  }

  // ---- Names and handles always lead to files ---------------------------------------------------------------------

  ghost predicate FilesExist(r: Receiver) {
    && (forall id :: IsIncoming(r, id) ==> r.rx[id].node < |r.nodes|)
    && (forall p :: p in r.names ==> r.names[p] < |r.nodes|)
  }

  lemma StepKeepsFiles(digest: Digest, l: Link, step: Step)
    requires FilesExist(l.r) && Enabled(l, step)
    ensures FilesExist(Next(digest, l, step).r)
  {}

  /** So a chunk is never lost for want of its file, and a name that exists can
    * always be hashed. */
  lemma {:induction false} AlwaysFilesExist(digest: Digest, trace: seq<Link>, steps: seq<Step>, n: nat)
    requires Execution(digest, trace, steps) && Initial(trace[0]) && n < |trace|
    ensures FilesExist(trace[n].r)
    ensures forall dest :: StagedAt(trace[n].r, dest).Some? <==> PartPath(dest) in trace[n].r.names
  {
    if n > 0 {
      AlwaysFilesExist(digest, trace, steps, n - 1);
      assert Enabled(trace[n - 1], steps[n - 1]) && trace[n - 1 + 1] == Next(digest, trace[n - 1], steps[n - 1]);
      StepKeepsFiles(digest, trace[n - 1], steps[n - 1]);
    }
  }
}
