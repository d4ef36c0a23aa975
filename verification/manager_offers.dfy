/** Which offers core/transfer/manager.py accepts, and what that says of every
  * receiver it has registered. */
module ManagerOffers {
  import opened Wrappers
  import opened Bytes
  import opened MapSums
  import opened FileReceivers
  import opened DestPaths
  import opened TransferManagers

  /** Active receivers, and the bytes they still claim. */
  ghost function Active(t: Table): nat {
    Sum(map k | k in t :: if t[k].progress.status in {Offered, Receiving} then 1 else 0)
  }

  ghost function Claimed(t: Table): nat {
    Sum(map k | k in t :: if t[k].progress.status in {Offered, Receiving} then t[k].offer.size else 0)
  }

  lemma PendingIs(t: Table)
    ensures Sum(Counts(t)) == Active(t) && Sum(Sizes(t)) == Claimed(t)
  {
    assert Counts(t) == map k | k in t :: if t[k].progress.status in {Offered, Receiving} then 1 else 0;
    assert Sizes(t) == map k | k in t :: if t[k].progress.status in {Offered, Receiving} then t[k].offer.size else 0;
  }

  /** What an offer must meet: one byte to two gibibytes, fewer active transfers and
    * fewer claimed bytes than the limits, ten mebibytes to spare on a disk whose
    * space is known, and a name that can be made safe. */
  ghost predicate Acceptable(l: Limits, t: Table, filename: string, size: int, free: Option<nat>) {
    Affordable(l, t, size, free) && SafeName(filename).Some?
  }

  ghost predicate Affordable(l: Limits, t: Table, size: int, free: Option<nat>) {
    && 1 <= size <= 2147483648
    && Active(t) < l.maxConcurrent && Claimed(t) + size <= l.maxTotal
    && (free.Some? ==> free.value >= size + 10485760)
  }

  /** An offer is accepted exactly then, and refused for the first of these that
    * fails. */
  lemma OfferExactly(l: Limits, t: Table, filename: string, size: int, free: Option<nat>)
    ensures var r := Refusal(t, l.maxConcurrent, l.maxTotal, filename, size, free);
            && (r.None? <==> Acceptable(l, t, filename, size, free))
            && (r == Some(InvalidSize) <==> !(1 <= size <= 2147483648))
            && (r == Some(TooManyTransfers) <==> 1 <= size <= 2147483648 && Active(t) >= l.maxConcurrent)
            && (r == Some(TotalExceeded) <==>
                  1 <= size <= 2147483648 && Active(t) < l.maxConcurrent && Claimed(t) + size > l.maxTotal)
            && (r == Some(UnsafeName) <==> SafeName(filename).None? && Affordable(l, t, size, free))
  {
    PendingIs(t);
  }

  /** Removing a transfer gives back exactly what it held. */
  lemma RemovalGivesBack(l: Limits, s: State, id: Id)
    requires id in s.table
    ensures var t, e := Next(l, s, Remove(id)), s.table[id]; var live := e.progress.status in {Offered, Receiving};
            && t.table == s.table - {id} && t.files == s.files && t.tickets == s.tickets
            && Active(t.table) == Active(s.table) - (if live then 1 else 0)
            && Claimed(t.table) == Claimed(s.table) - (if live then e.offer.size else 0)
  {
    PendingIs(s.table);
    PendingIs(s.table - {id});
    WeighWithout(Weight, s.table, id);
    WeighWithout(Load, s.table, id);
  }

  lemma WeighWithout(f: Entry -> nat, t: Table, id: Id)
    requires id in t
    ensures Sum(Weigh(f, t - {id})) + f(t[id]) == Sum(Weigh(f, t))
  {
    SumRemove(Weigh(f, t), id);
    assert Weigh(f, t - {id}) == Weigh(f, t) - {id};
  }

  /** Operation n of a run validated an offer of this size and gave it this path. */
  ghost predicate ValidatedAt(l: Limits, files: Files, ops: seq<Op>, n: nat, size: nat, dest: Path) {
    && n < |ops| && ops[n].Validate? && ops[n].size == size
    && var s := After(l, files, ops[..n]);
       && Acceptable(l, s.table, ops[n].filename, size, ops[n].free)
       && dest == FirstFreePath(s.files.Keys, l.dir, SafeName(ops[n].filename).value)
  }

  ghost predicate Validated(l: Limits, files: Files, ops: seq<Op>, size: nat, dest: Path) {
    exists n: nat :: ValidatedAt(l, files, ops, n, size, dest)
  }

  lemma ValidatedStays(l: Limits, files: Files, ops: seq<Op>, size: nat, dest: Path)
    requires ops != [] && Validated(l, files, ops[..|ops| - 1], size, dest)
    ensures Validated(l, files, ops, size, dest)
  {
    var before := ops[..|ops| - 1];
    var n: nat :| ValidatedAt(l, files, before, n, size, dest);
    assert before[..n] == ops[..n];
    assert ValidatedAt(l, files, ops, n, size, dest);
  }

  ghost predicate AllValidated(l: Limits, files: Files, ops: seq<Op>, s: State) {
    && (forall i :: 0 <= i < |s.tickets| ==> Validated(l, files, ops, s.tickets[i].size, s.tickets[i].dest))
    && (forall id :: id in s.table ==>
          Validated(l, files, ops, s.table[id].offer.size, s.table[id].offer.dest)
          && s.table[id].offer.chunkSize == 65536)
  }

  /** What one operation leaves of tickets and offers. */
  lemma OffersStep(l: Limits, s: State, op: Op)
    ensures var t := Next(l, s, op);
            && (forall i :: 0 <= i < |t.tickets| ==>
                  || (i < |s.tickets| && t.tickets[i].size == s.tickets[i].size
                      && t.tickets[i].dest == s.tickets[i].dest)
                  || (op.Validate? && Accepts(l, s, op) && t.tickets[i].size == op.size
                      && t.tickets[i].dest == FirstFreePath(s.files.Keys, l.dir, SafeName(op.filename).value)))
            && (forall id :: id in t.table ==>
                  || (id in s.table && t.table[id].offer == s.table[id].offer)
                  || (op.Create? && op.id == id && op.ticket < |s.tickets| && t.table[id].offer.chunkSize == 65536
                      && t.table[id].offer.size == s.tickets[op.ticket].size
                      && t.table[id].offer.dest == s.tickets[op.ticket].dest
                      && t.table[id].offer.checksum == op.checksum))
  {}

  lemma {:induction false} AlwaysValidated(l: Limits, files: Files, ops: seq<Op>)
    ensures AllValidated(l, files, ops, After(l, files, ops))
  {
    if ops != [] {
      var n := |ops| - 1;
      var before, op := ops[..n], ops[n];
      var s, t := After(l, files, before), After(l, files, ops);
      AlwaysValidated(l, files, before);
      OffersStep(l, s, op);
      if op.Validate? && Accepts(l, s, op) {
        OfferExactly(l, s.table, op.filename, op.size, op.free);
        assert ValidatedAt(l, files, ops, n, op.size,
            FirstFreePath(s.files.Keys, l.dir, SafeName(op.filename).value));
      }
      forall i | 0 <= i < |t.tickets| ensures Validated(l, files, ops, t.tickets[i].size, t.tickets[i].dest) {
        if i < |s.tickets| && t.tickets[i].size == s.tickets[i].size && t.tickets[i].dest == s.tickets[i].dest {
          ValidatedStays(l, files, ops, s.tickets[i].size, s.tickets[i].dest);
        }
      }
      forall id | id in t.table
        ensures Validated(l, files, ops, t.table[id].offer.size, t.table[id].offer.dest)
        ensures t.table[id].offer.chunkSize == 65536
      {
        ValidatedStays(l, files, ops, t.table[id].offer.size, t.table[id].offer.dest);
      }
    }
  }

  /** In every run each registered receiver goes back to an offer that met all
    * conditions when it was validated, and has the path that was free then. */
  lemma RegisteredWasValidated(l: Limits, files: Files, ops: seq<Op>, id: Id) returns (n: nat)
    requires id in After(l, files, ops).table
    ensures var e := After(l, files, ops).table[id];
            && ValidatedAt(l, files, ops, n, e.offer.size, e.offer.dest)
            && Free(After(l, files, ops[..n]).files.Keys, e.offer.dest)
  {
    AlwaysValidated(l, files, ops);
    var e := After(l, files, ops).table[id];
    n :| ValidatedAt(l, files, ops, n, e.offer.size, e.offer.dest);
  }
}
