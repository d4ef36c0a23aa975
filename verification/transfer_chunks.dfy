/** What file_transfer.py keeps of what is sent to it, whatever is sent: no file
  * outgrows its offer, and what each message does to a transfer. */
module TransferChunks {
  import opened Wrappers
  import opened Bytes
  import opened FileReceivers
  import opened DestPaths
  import opened TransferSessions
  import opened TransferOnce

  // ---- No transfer outgrows its offer -----------------------------------------------------------------

  /** The file of an incoming transfer holds what was counted, at most what was
    * offered, and that at most two gibibytes; and it is no other's file. */
  ghost predicate Fitting(r: Receiver, id: Id)
    requires IsIncoming(r, id)
  {
    var x := r.rx[id];
    && x.node < |r.nodes| && |r.nodes[x.node]| == x.bytesReceived <= x.size <= 2147483648
    && forall j :: IsIncoming(r, j) && j != id ==> r.rx[j].node != x.node
  }

  ghost predicate AllFitting(r: Receiver) {
    && (forall id :: IsIncoming(r, id) ==> Fitting(r, id))
    && (forall id :: id in r.rx && r.rx[id].Asked? ==> r.rx[id].size <= 2147483648)
  }

  /** Replacing one entry by one that is not incoming. */
  lemma EntryKeepsFitting(r: Receiver, q: Receiver, id: Id)
    requires AllFitting(r) && q.nodes == r.nodes && id in q.rx && q.rx == r.rx[id := q.rx[id]]
    requires !q.rx[id].Incoming? && (q.rx[id].Asked? ==> q.rx[id].size <= 2147483648)
    ensures AllFitting(q)
  {
    forall j | IsIncoming(q, j) ensures Fitting(q, j) { assert Fitting(r, j); }
  }

  lemma ChunkKeepsFitting(r: Receiver, m: Fwd)
    requires m.DataMsg? && AllFitting(r)
    ensures AllFitting(HandleChunk(r, m).0)
  {
    var q := HandleChunk(r, m).0;
    if IsIncoming(r, m.id) {
      if IsIncoming(q, m.id) {
        forall j | IsIncoming(q, j) ensures Fitting(q, j) { assert Fitting(r, j) && Fitting(r, m.id); }
      } else {
        EntryKeepsFitting(r, q, m.id);
      }
    }
  }

  lemma DoneKeepsFitting(digest: Digest, r: Receiver, id: Id)
    requires AllFitting(r)
    ensures AllFitting(HandleDone(digest, r, id).0)
  {
    if IsIncoming(r, id) { EntryKeepsFitting(r, HandleDone(digest, r, id).0, id); }
  }

  lemma AcceptKeepsFitting(r: Receiver, id: Id)
    requires id in r.rx && r.rx[id].Asked? && AllFitting(r)
    ensures AllFitting(AcceptOffer(r, id))
  {
    var q := AcceptOffer(r, id);
    forall j | IsIncoming(r, j) ensures r.rx[j].node < |r.nodes| { assert Fitting(r, j); }
    forall j | IsIncoming(q, j) ensures Fitting(q, j) {
      if j != id { assert Fitting(r, j); }
    }
  }

  lemma StepKeepsFitting(digest: Digest, l: Link, step: Step)
    requires Enabled(l, step) && AllFitting(l.r)
    ensures AllFitting(Next(digest, l, step).r)
  {
    if step.ReceiveData? {
      ChunkKeepsFitting(l.r, l.fwd[0]);
    } else if step.ReceiveDone? {
      DoneKeepsFitting(digest, l.r, l.fwd[0].id);
    } else if step.Decide? && step.accept {
      AcceptKeepsFitting(l.r, step.id);
    } else if step.ReceiveOffer? || step.Decide? || step.Rename? {
      var id := if step.ReceiveOffer? then l.fwd[0].id else step.id;
      EntryKeepsFitting(l.r, Next(digest, l, step).r, id);
    } else {
      assert Next(digest, l, step).r == l.r;
    }
  }

  /** In every execution, with whatever chunks, the file of each incoming transfer
    * holds as many bytes as it counted and never more than were offered. */
  lemma {:induction false} NeverOutgrown(digest: Digest, trace: seq<Link>, steps: seq<Step>, n: nat)
    requires Execution(digest, trace, steps) && Initial(trace[0]) && n < |trace|
    ensures AllFitting(trace[n].r)
  {
    if n > 0 {
      NeverOutgrown(digest, trace, steps, n - 1);
      assert Enabled(trace[n - 1], steps[n - 1]) && trace[n - 1 + 1] == Next(digest, trace[n - 1], steps[n - 1]);
      StepKeepsFitting(digest, trace[n - 1], steps[n - 1]);
    }
  }

  // ---- What a message does -----------------------------------------------------------------------------

  /** Only the entry of one transfer changes. */
  ghost predicate OnlyEntry(r: Receiver, q: Receiver, id: Id) {
    id in q.rx && q.rx == r.rx[id := q.rx[id]]
  }

  /** Names other than these lead where they led, and these lead nowhere. */
  ghost predicate NamesDropped(r: Receiver, q: Receiver, gone: set<Path>) {
    && (forall p :: p in gone ==> p !in q.names)
    && (forall p :: p !in gone ==> (p in q.names <==> p in r.names) && (p in r.names ==> q.names[p] == r.names[p]))
  }

  /** A chunk for an incoming transfer is kept exactly when its number, its place
    * and the total all fit. Then its bytes are added to the file; otherwise the
    * transfer is dropped with both its names, reported and answered as failed. */
  lemma ChunkExactly(r: Receiver, m: Fwd)
    requires m.DataMsg? && IsIncoming(r, m.id) && r.rx[m.id].node < |r.nodes|
    ensures var x := r.rx[m.id]; var (q, out) := HandleChunk(r, m);
            && OnlyEntry(r, q, m.id) && q.verified == r.verified
            && (IsIncoming(q, m.id) <==>
                  m.sequence == x.expectedIndex && m.offset == x.bytesReceived && x.bytesReceived + |m.data| <= x.size)
            && (IsIncoming(q, m.id) ==>
                  && out == [] && q.names == r.names && q.resolved == r.resolved
                  && q.nodes == r.nodes[x.node := r.nodes[x.node] + m.data]
                  && q.rx[m.id] == x.(bytesReceived := x.bytesReceived + |m.data|,
                                      expectedIndex := x.expectedIndex + 1))
            && (!IsIncoming(q, m.id) ==>
                  && q.rx[m.id].Resolved? && out == [AckMsg(m.id, false)] && q.nodes == r.nodes
                  && q.resolved == r.resolved + [(m.id, false)] && NamesDropped(r, q, {x.dest, PartPath(x.dest)}))
  {}

  /** The last message of an incoming transfer whose .part file is there is
    * answered with success exactly when that file has the offered digest and all
    * bytes were counted; nothing is renamed before the answer. */
  lemma DoneExactly(digest: Digest, r: Receiver, id: Id)
    requires IsIncoming(r, id)
    ensures var x := r.rx[id]; var (q, out) := HandleDone(digest, r, id); var part := PartPath(x.dest);
            && OnlyEntry(r, q, id) && q.names == r.names && q.nodes == r.nodes && q.resolved == r.resolved
            && (part in r.names && r.names[part] < |r.nodes| ==>
                  var success := digest(r.nodes[r.names[part]]) == x.checksum && x.bytesReceived == x.size;
                  out == [AckMsg(id, success)] && q.rx[id] == Finishing(x.dest, x.node, success))
            && (part !in r.names ==> out == [] && q.rx[id].Crashed?)
  {}

  /** After the answer, a verified file gets its name and any other loses its
    * .part; no other name is touched, and each is reported as it was answered. */
  lemma RenameExactly(r: Receiver, id: Id)
    requires id in r.rx && r.rx[id].Finishing?
    ensures var x, q := r.rx[id], FinishDone(r, id); var part := PartPath(x.dest);
            && OnlyEntry(r, q, id) && q.nodes == r.nodes && q.verified == r.verified
            && (!x.success ==> NamesDropped(r, q, {part}) && q.resolved == r.resolved + [(id, false)])
            && (x.success && part in r.names ==>
                  && part !in q.names && x.dest in q.names && q.names[x.dest] == r.names[part]
                  && (forall p :: p != part && p != x.dest ==>
                        (p in q.names <==> p in r.names) && (p in r.names ==> q.names[p] == r.names[p]))
                  && q.rx[id] == Stored(x.dest, r.names[part]) && q.resolved == r.resolved + [(id, true)])
            && (x.success && part !in r.names ==> q.names == r.names && q.rx[id].Crashed? && q.resolved == r.resolved)
  {
    assert |PartPath(r.rx[id].dest)| > |r.rx[id].dest|;
  }

  /** An offer is put to the user exactly when it declares at most two gibibytes, the
    * disk has them and ten mebibytes to spare as far as it can tell, and its name
    * can be made safe; every other is answered with a reject. */
  lemma OfferExactly(digest: Digest, l: Link, step: Step)
    requires Enabled(l, step) && step.ReceiveOffer? && step.ok
    ensures var m, k := l.fwd[0], Next(digest, l, step);
            var fine := m.size <= 2147483648 && (step.free.Some? ==> step.free.value >= m.size + 10485760)
                        && SafeName(m.filename).Some?;
            && OnlyEntry(l.r, k.r, m.id) && k.r.names == l.r.names && k.r.nodes == l.r.nodes && k.s == l.s
            && (fine ==> k.back == l.back && k.r.rx[m.id] == Asked(m.size, m.checksum, step.dest)
                         && step.dest !in l.r.names && PartPath(step.dest) !in l.r.names)
            && (!fine ==> k.back == l.back + [RejectMsg(m.id)] && k.r.rx[m.id].Refused?)
  {}
}
