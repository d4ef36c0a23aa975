/** Sums over the entries of a finite map. */
module MapSums {
  type Id = string

  ghost function Sum(w: map<Id, nat>): nat
    decreases |w|
  {
    if w == map[] then 0 else
      var k :| k in w;
      w[k] + Sum(w - {k})
  }

  lemma {:induction false} SumRemove(w: map<Id, nat>, k: Id)
    requires k in w
    ensures Sum(w) == w[k] + Sum(w - {k})
    decreases |w|
  {
    var j :| j in w && Sum(w) == w[j] + Sum(w - {j});
    if j != k {
      SumRemove(w - {j}, k);
      SumRemove(w - {k}, j);
      assert w - {j} - {k} == w - {k} - {j};
    }
  }

  lemma SumUpdate(w: map<Id, nat>, k: Id, v: nat)
    ensures Sum(w[k := v]) == v + Sum(w - {k})
  {
    SumRemove(w[k := v], k);
    assert w[k := v] - {k} == w - {k};
  }

  /** Changing one entry changes the sum by the difference. */
  lemma SumChange(w: map<Id, nat>, k: Id, v: nat)
    ensures Sum(w[k := v]) + (if k in w then w[k] else 0) == Sum(w) + v
    ensures Sum(w - {k}) + (if k in w then w[k] else 0) == Sum(w)
  {
    SumUpdate(w, k, v);
    if k in w {
      SumRemove(w, k);
    } else {
      assert w - {k} == w;
    }
  }

  lemma {:induction false} SumPointwise(w: map<Id, nat>, v: map<Id, nat>)
    requires w.Keys == v.Keys && forall k :: k in w ==> w[k] <= v[k]
    ensures Sum(w) <= Sum(v)
    decreases |w|
  {
    if w == map[] {
      assert v == map[] by { assert v.Keys == {}; }
    } else {
      var k :| k in w;
      SumRemove(w, k);
      SumRemove(v, k);
      SumPointwise(w - {k}, v - {k});
    }
  }
}

/** core/transfer/manager.py: limits on concurrent incoming transfers. */
module TransferManagers {
  import opened Wrappers
  import opened Bytes
  import opened MapSums
  import opened FileReceivers
  import opened DestPaths

  const ChunkSize := 64 * 1024

  /** One registered receiver. */
  datatype Entry = Entry(offer: Offer, progress: Progress) {
    predicate Active() { progress.status in {Offered, Receiving} }
  }

  type Table = map<Id, Entry>

  function Weigh(f: Entry -> nat, t: Table): map<Id, nat> { map k | k in t :: f(t[k]) }

  function Counts(t: Table): map<Id, nat> { Weigh(Weight, t) }
  function Sizes(t: Table): map<Id, nat> { Weigh(Load, t) }
  function Accepted(t: Table): map<Id, nat> { Weigh(Taken, t) }

  function Weight(e: Entry): nat { if e.Active() then 1 else 0 }
  function Load(e: Entry): nat { if e.Active() then e.offer.size else 0 }
  function Taken(e: Entry): nat { if e.Active() then e.progress.bytesReceived else 0 }

  datatype OfferError = InvalidSize | TooManyTransfers | TotalExceeded | NoDiskSpace | UnsafeName

  class FileTransferManager {
    const dir: Path
    const maxConcurrent: int
    const maxTotal: int
    var receivers: Table
    var senders: map<Id, Path>

    constructor (dir: Path, maxConcurrent: int, maxTotal: int)
      ensures this.dir == dir && this.maxConcurrent == maxConcurrent && this.maxTotal == maxTotal
      ensures receivers == map[] && senders == map[]
    {
      this.dir, this.maxConcurrent, this.maxTotal := dir, maxConcurrent, maxTotal;
      receivers, senders := map[], map[];
    }

    /** active_incoming_count and total_incoming_bytes_pending, in one pass. */
    method Pending() returns (count: nat, total: nat)
      ensures count == Sum(Counts(receivers)) && total == Sum(Sizes(receivers))
    {
      count, total := 0, 0;
      var rest := receivers.Keys;
      ghost var counts, sizes := Counts(receivers), Sizes(receivers);
      while rest != {}
        invariant rest <= receivers.Keys
        invariant counts == map k | k in rest :: Counts(receivers)[k]
        invariant sizes == map k | k in rest :: Sizes(receivers)[k]
        invariant count + Sum(counts) == Sum(Counts(receivers))
        invariant total + Sum(sizes) == Sum(Sizes(receivers))
      {
        var k :| k in rest;
        SumRemove(counts, k);
        SumRemove(sizes, k);
        if receivers[k].Active() {
          count, total := count + 1, total + receivers[k].offer.size;
        }
        rest := rest - {k};
        counts, sizes := counts - {k}, sizes - {k};
      }
      assert counts == map[] && sizes == map[];
    }

    method ValidateOffer(filename: string, size: int, free: Option<nat>, existing: set<Path>)
        returns (r: Result<Path, OfferError>)
      ensures match Refusal(receivers, maxConcurrent, maxTotal, filename, size, free)
              case Some(e) => r == Err(e)
              case None => SafeName(filename).Some? && r == Ok(FirstFreePath(existing, dir, SafeName(filename).value))
    {
      if size <= 0 || size > MaxIncomingFileSize {
        return Err(InvalidSize);
      }
      var count, total := Pending();
      if count >= maxConcurrent {
        return Err(TooManyTransfers);
      }
      if total + size > maxTotal {
        return Err(TotalExceeded);
      }
      if !CheckDiskSpace(free, size) {
        return Err(NoDiskSpace);
      }
      var path := ResolveSafeDestPath(filename, dir, existing);
      if path.Err? {
        return Err(UnsafeName);
      }
      return Ok(path.value);
    }

    method CreateReceiver(id: Id, size: nat, checksum: string, dest: Path)
      modifies this
      ensures receivers == old(receivers)[id := Entry(Offer(size, checksum, dest, ChunkSize), Idle)]
      ensures senders == old(senders)
    {
      receivers := receivers[id := Entry(Offer(size, checksum, dest, ChunkSize), Idle)];
    }

    method CreateSender(id: Id, filepath: Path)
      modifies this
      ensures senders == old(senders)[id := filepath] && receivers == old(receivers)
    {
      senders := senders[id := filepath];
    }

    method RemoveTransfer(id: Id)
      modifies this
      ensures receivers == old(receivers) - {id} && senders == old(senders) - {id}
    {
      senders := senders - {id};
      receivers := receivers - {id};
    }
  }

  /** The first reason validate_offer has to refuse, if any. */
  ghost function Refusal(t: Table, maxConcurrent: int, maxTotal: int, filename: string, size: int,
                         free: Option<nat>): Option<OfferError> {
    if size <= 0 || size > MaxIncomingFileSize then Some(InvalidSize)
    else if Sum(Counts(t)) >= maxConcurrent then Some(TooManyTransfers)
    else if Sum(Sizes(t)) + size > maxTotal then Some(TotalExceeded)
    else if !CheckDiskSpace(free, size) then Some(NoDiskSpace)
    else if SafeName(filename).None? then Some(UnsafeName)
    else None
  }

  // ---- Quotas over whole runs ----------------------------------------------------------------------

  /** Validating an offer and registering its receiver are two calls; ticket
    * says which validation a registration goes by. */
  datatype Op =
    | Validate(filename: string, size: int, free: Option<nat>)
    | Create(ticket: nat, id: Id, checksum: string)
    | Start(id: Id, resume: bool)
    | Chunk(id: Id, sequence: int, offset: int, data: Bytes)
    | Finishing(id: Id)
    | Aborting(id: Id, cleanup: bool)
    | Remove(id: Id)

  /** A successful validation, stale once any receiver was registered since. */
  datatype Ticket = Ticket(size: nat, dest: Path, stale: bool)

  datatype State = State(table: Table, files: Files, tickets: seq<Ticket>)

  datatype Limits = Limits(dir: Path, maxConcurrent: int, maxTotal: int, digest: Digest)

  function Stale(tickets: seq<Ticket>): (r: seq<Ticket>)
    ensures |r| == |tickets| && forall i :: 0 <= i < |r| ==> r[i] == tickets[i].(stale := true)
  {
    seq(|tickets|, i requires 0 <= i < |tickets| => tickets[i].(stale := true))
  }

  /** A receiver is registered with no other registration since its validation,
    * and started only while it is offered or receiving. */
  ghost predicate Orderly(s: State, op: Op) {
    match op
    case Create(i, _, _) => i < |s.tickets| && !s.tickets[i].stale
    case Start(id, _) => id in s.table ==> s.table[id].Active()
    case _ => true
  }

  ghost predicate Accepts(l: Limits, s: State, op: Op)
    requires op.Validate?
  {
    Refusal(s.table, l.maxConcurrent, l.maxTotal, op.filename, op.size, op.free).None?
  }

  ghost function Next(l: Limits, s: State, op: Op): State {
    match op
    case Validate(filename, size, _) =>
      if !Accepts(l, s, op) then s
      else s.(tickets := s.tickets
        + [Ticket(size, FirstFreePath(s.files.Keys, l.dir, SafeName(filename).value), false)])
    case Create(i, id, checksum) =>
      if i >= |s.tickets| then s
      else s.(table := s.table[id := Entry(Offer(s.tickets[i].size, checksum, s.tickets[i].dest, ChunkSize), Idle)],
              tickets := Stale(s.tickets))
    case _ => if op.id in s.table then Call(l, s, op) else s
  }

  /** A call on a registered receiver. */
  ghost function Call(l: Limits, s: State, op: Op): State
    requires !op.Validate? && !op.Create? && op.id in s.table
  {
    var e := s.table[op.id];
    match op
    case Start(id, resume) =>
      var (p, files, _) := Prepare(e.offer.(chunkSize := ChunkSize), s.files, resume);
      s.(table := s.table[id := e.(progress := p)], files := files)
    case Chunk(id, sequence, offset, data) =>
      var (p, files, _) := WriteChunk(e.offer, e.progress, s.files, sequence, offset, data);
      s.(table := s.table[id := e.(progress := p)], files := files)
    case Finishing(id) =>
      var (p, files, _) := Finish(e.offer, l.digest, e.progress, s.files);
      s.(table := s.table[id := e.(progress := p)], files := files)
    case Aborting(id, cleanup) =>
      var (p, files) := Abort(e.offer, e.progress, s.files, cleanup);
      s.(table := s.table[id := e.(progress := p)], files := files)
    case Remove(id) => s.(table := s.table - {id})
  }

  ghost function After(l: Limits, files: Files, ops: seq<Op>): State {
    if ops == [] then State(map[], files, []) else Next(l, After(l, files, ops[..|ops| - 1]), ops[|ops| - 1])
  }

  ghost predicate OrderlyRun(l: Limits, files: Files, ops: seq<Op>) {
    forall i :: 0 <= i < |ops| ==> Orderly(After(l, files, ops[..i]), ops[i])
  }

  ghost predicate WithinLimits(l: Limits, t: Table) {
    && Sum(Counts(t)) <= l.maxConcurrent
    && Sum(Sizes(t)) <= l.maxTotal
    && forall k :: k in t ==> t[k].progress.bytesReceived <= t[k].offer.size
  }

  /** There is room for one more transfer of this size. */
  ghost predicate Room(l: Limits, t: Table, size: nat) {
    Sum(Counts(t)) + 1 <= l.maxConcurrent && Sum(Sizes(t)) + size <= l.maxTotal
  }

  ghost predicate TicketsHaveRoom(l: Limits, s: State) {
    forall i :: 0 <= i < |s.tickets| && !s.tickets[i].stale ==> Room(l, s.table, s.tickets[i].size)
  }

  /** The effect on a sum of putting e at id, or of removing id. */
  lemma WeighUpdate(f: Entry -> nat, t: Table, id: Id, e: Entry)
    ensures Sum(Weigh(f, t[id := e])) + (if id in t then f(t[id]) else 0) == Sum(Weigh(f, t)) + f(e)
  {
    SumChange(Weigh(f, t), id, f(e));
    assert Weigh(f, t[id := e]) == Weigh(f, t)[id := f(e)];
  }

  lemma WeighRemove(f: Entry -> nat, t: Table, id: Id)
    ensures Sum(Weigh(f, t - {id})) <= Sum(Weigh(f, t))
  {
    SumChange(Weigh(f, t), id, 0);
    assert Weigh(f, t - {id}) == Weigh(f, t) - {id};
  }

  /** No call on a registered receiver makes it weigh more. */
  lemma EntryShrinks(l: Limits, s: State, op: Op)
    requires Orderly(s, op) && !op.Validate? && !op.Create? && !op.Remove? && op.id in s.table
    requires s.table[op.id].progress.bytesReceived <= s.table[op.id].offer.size
    ensures var t := Call(l, s, op).table; var e := s.table[op.id];
            && op.id in t && t == s.table[op.id := t[op.id]]
            && Weight(t[op.id]) <= Weight(e) && Load(t[op.id]) <= Load(e)
            && t[op.id].progress.bytesReceived <= t[op.id].offer.size
  {}

  lemma CallKeepsLimits(l: Limits, s: State, op: Op)
    requires WithinLimits(l, s.table) && TicketsHaveRoom(l, s) && Orderly(s, op)
    requires !op.Validate? && !op.Create? && op.id in s.table
    ensures WithinLimits(l, Call(l, s, op).table) && TicketsHaveRoom(l, Call(l, s, op))
  {
    var t := Call(l, s, op).table;
    if op.Remove? {
      WeighRemove(Weight, s.table, op.id);
      WeighRemove(Load, s.table, op.id);
    } else {
      EntryShrinks(l, s, op);
      WeighUpdate(Weight, s.table, op.id, t[op.id]);
      WeighUpdate(Load, s.table, op.id, t[op.id]);
    }
    assert Sum(Counts(t)) <= Sum(Counts(s.table)) && Sum(Sizes(t)) <= Sum(Sizes(s.table));
    assert Call(l, s, op).tickets == s.tickets;
  }

  lemma CreateKeepsLimits(l: Limits, s: State, op: Op)
    requires WithinLimits(l, s.table) && TicketsHaveRoom(l, s) && Orderly(s, op) && op.Create?
    ensures WithinLimits(l, Next(l, s, op).table) && TicketsHaveRoom(l, Next(l, s, op))
  {
    var e := Next(l, s, op).table[op.id];
    assert Room(l, s.table, s.tickets[op.ticket].size);
    WeighUpdate(Weight, s.table, op.id, e);
    WeighUpdate(Load, s.table, op.id, e);
  }

  /** Exactly when a registration keeps the limits, however old its validation
    * is: when a validation made now would still find room. */
  lemma CreateKeepsLimitsExactly(l: Limits, s: State, op: Op)
    requires WithinLimits(l, s.table) && op.Create? && op.ticket < |s.tickets| && op.id !in s.table
    ensures WithinLimits(l, Next(l, s, op).table) <==> Room(l, s.table, s.tickets[op.ticket].size)
  {
    var e := Next(l, s, op).table[op.id];
    WeighUpdate(Weight, s.table, op.id, e);
    WeighUpdate(Load, s.table, op.id, e);
  }

  lemma StepKeepsLimits(l: Limits, s: State, op: Op)
    requires WithinLimits(l, s.table) && TicketsHaveRoom(l, s) && Orderly(s, op)
    ensures WithinLimits(l, Next(l, s, op).table) && TicketsHaveRoom(l, Next(l, s, op))
  {
    if op.Create? {
      CreateKeepsLimits(l, s, op);
    } else if !op.Validate? && op.id in s.table {
      CallKeepsLimits(l, s, op);
    }
  }

  lemma {:induction false} AlwaysWithinLimits(l: Limits, files: Files, ops: seq<Op>)
    requires l.maxConcurrent >= 0 && l.maxTotal >= 0 && OrderlyRun(l, files, ops)
    ensures WithinLimits(l, After(l, files, ops).table) && TicketsHaveRoom(l, After(l, files, ops))
  {
    if ops == [] {
      assert Counts(map[]) == map[] && Sizes(map[]) == map[];
    } else {
      var before := ops[..|ops| - 1];
      assert forall i :: 0 <= i < |before| ==> ops[..i] == before[..i];
      AlwaysWithinLimits(l, files, before);
      StepKeepsLimits(l, After(l, files, before), ops[|ops| - 1]);
    }
  }

  /** Over every orderly run the number of active transfers, their declared
    * sizes and the bytes they have accepted stay within the limits. */
  lemma QuotasHold(l: Limits, files: Files, ops: seq<Op>)
    requires l.maxConcurrent >= 0 && l.maxTotal >= 0 && OrderlyRun(l, files, ops)
    ensures var t := After(l, files, ops).table;
            WithinLimits(l, t) && Sum(Accepted(t)) <= Sum(Sizes(t)) <= l.maxTotal
  {
    AlwaysWithinLimits(l, files, ops);
    var t := After(l, files, ops).table;
    SumPointwise(Accepted(t), Sizes(t));
  }

  // ---- The bytes on disk -----------------------------------------------------------------------------

  function DiskBytes(files: Files): Entry -> nat {
    (e: Entry) => if e.progress.isOpen && PartPath(e.offer.dest) in files then |files[PartPath(e.offer.dest)]| else 0
  }

  /** A new transfer to dest shares no file with e while e is active, and what a
    * late finish of e delivers is not its .part. */
  predicate Clear(dest: Path, e: Entry) {
    PartPath(dest) != e.offer.dest && (e.Active() ==> Separate(dest, e.offer.dest))
  }

  /** The path a validation gives is separate from every active one, as far as
    * names and existing files show, and its .part is no registered destination.
    * A failed or finished receiver may have had the same path. */
  ghost predicate NamedApart(l: Limits, s: State, op: Op) {
    op.Validate? && Accepts(l, s, op) ==>
      var path := FirstFreePath(s.files.Keys, l.dir, SafeName(op.filename).value);
      forall k :: k in s.table ==>
        && PartPath(path) != s.table[k].offer.dest
        && (s.table[k].Active() ==> SeparateByName(s.files.Keys, path, s.table[k].offer.dest))
  }

  ghost predicate NamedApartRun(l: Limits, files: Files, ops: seq<Op>) {
    forall i :: 0 <= i < |ops| ==> NamedApart(l, After(l, files, ops[..i]), ops[i])
  }

  /** An open receiver is receiving, and its .part file, if it is still there,
    * holds no more than it counted. */
  ghost predicate Bounded(e: Entry, files: Files) {
    e.progress.isOpen ==>
      && e.progress.status == Receiving
      && (PartPath(e.offer.dest) in files ==> |files[PartPath(e.offer.dest)]| <= e.progress.bytesReceived)
  }

  ghost predicate AllBounded(s: State) {
    && (forall k :: k in s.table ==> Bounded(s.table[k], s.files))
    && (forall j, k :: j in s.table && k in s.table && j != k && s.table[j].Active()
                       ==> Clear(s.table[j].offer.dest, s.table[k]))
  }

  ghost predicate TicketsClear(s: State) {
    forall i, k :: 0 <= i < |s.tickets| && !s.tickets[i].stale && k in s.table
                   ==> Clear(s.tickets[i].dest, s.table[k])
  }

  /** Whatever is called on one receiver, no other's .part file grows. */
  lemma OthersStayBounded(l: Limits, s: State, op: Op, k: Id)
    requires AllBounded(s) && Orderly(s, op) && !op.Validate? && !op.Create?
    requires op.id in s.table && k in s.table && k != op.id
    ensures Bounded(s.table[k], Call(l, s, op).files)
  {
    var d, e := s.table[op.id].offer.dest, s.table[k].offer.dest;
    if d != e { PartsDiffer(d, e); }
    if s.table[k].Active() { assert Clear(e, s.table[op.id]); }
  }

  lemma OwnStaysBounded(l: Limits, s: State, op: Op)
    requires AllBounded(s) && Orderly(s, op) && !op.Validate? && !op.Create? && !op.Remove? && op.id in s.table
    ensures var t := Call(l, s, op);
            && op.id in t.table && t.table == s.table[op.id := t.table[op.id]] && t.tickets == s.tickets
            && Bounded(t.table[op.id], t.files) && t.table[op.id].offer.dest == s.table[op.id].offer.dest
            && (t.table[op.id].Active() ==> s.table[op.id].Active())
  {}

  lemma CallKeepsBounded(l: Limits, s: State, op: Op)
    requires AllBounded(s) && TicketsClear(s) && Orderly(s, op) && !op.Validate? && !op.Create? && op.id in s.table
    ensures AllBounded(Call(l, s, op)) && TicketsClear(Call(l, s, op))
  {
    var t := Call(l, s, op);
    if !op.Remove? {
      OwnStaysBounded(l, s, op);
      forall k | k in t.table ensures Bounded(t.table[k], t.files) {
        if k != op.id { OthersStayBounded(l, s, op, k); }
      }
    }
  }

  lemma ValidateKeepsClear(l: Limits, s: State, op: Op)
    requires TicketsClear(s) && NamedApart(l, s, op) && op.Validate?
    ensures TicketsClear(Next(l, s, op))
  {
    if Accepts(l, s, op) {
      var path := FirstFreePath(s.files.Keys, l.dir, SafeName(op.filename).value);
      forall k | k in s.table ensures Clear(path, s.table[k]) {
        SeparationOfFree(s.files.Keys, path, s.table[k].offer.dest);
      }
    }
  }

  lemma CreateKeepsBounded(l: Limits, s: State, op: Op)
    requires AllBounded(s) && TicketsClear(s) && Orderly(s, op) && op.Create?
    ensures AllBounded(Next(l, s, op)) && TicketsClear(Next(l, s, op))
  {}

  lemma StepKeepsBounded(l: Limits, s: State, op: Op)
    requires AllBounded(s) && TicketsClear(s) && Orderly(s, op) && NamedApart(l, s, op)
    ensures AllBounded(Next(l, s, op)) && TicketsClear(Next(l, s, op))
  {
    if op.Validate? {
      ValidateKeepsClear(l, s, op);
    } else if op.Create? {
      CreateKeepsBounded(l, s, op);
    } else if op.id in s.table {
      CallKeepsBounded(l, s, op);
    }
  }

  lemma {:induction false} AlwaysBounded(l: Limits, files: Files, ops: seq<Op>)
    requires OrderlyRun(l, files, ops) && NamedApartRun(l, files, ops)
    ensures AllBounded(After(l, files, ops)) && TicketsClear(After(l, files, ops))
  {
    if ops != [] {
      var before := ops[..|ops| - 1];
      assert forall i :: 0 <= i < |before| ==> ops[..i] == before[..i];
      AlwaysBounded(l, files, before);
      StepKeepsBounded(l, After(l, files, before), ops[|ops| - 1]);
    }
  }

  /** All open .part files together never exceed the total limit. */
  lemma DiskQuotaHolds(l: Limits, files: Files, ops: seq<Op>)
    requires l.maxConcurrent >= 0 && l.maxTotal >= 0 && OrderlyRun(l, files, ops) && NamedApartRun(l, files, ops)
    ensures var s := After(l, files, ops); Sum(Weigh(DiskBytes(s.files), s.table)) <= l.maxTotal
  {
    QuotasHold(l, files, ops);
    AlwaysBounded(l, files, ops);
    var s := After(l, files, ops);
    SumPointwise(Weigh(DiskBytes(s.files), s.table), Sizes(s.table));
  }

  // ---- Each receiver's own file -------------------------------------------------------------------------

  /** The path is separate from every registered one, finished and failed ones
    * included. */
  ghost predicate NamedApartFromAll(l: Limits, s: State, op: Op) {
    op.Validate? && Accepts(l, s, op) ==>
      var path := FirstFreePath(s.files.Keys, l.dir, SafeName(op.filename).value);
      forall k :: k in s.table ==> SeparateByName(s.files.Keys, path, s.table[k].offer.dest)
  }

  ghost predicate NamedApartFromAllRun(l: Limits, files: Files, ops: seq<Op>) {
    forall i :: 0 <= i < |ops| ==> NamedApartFromAll(l, After(l, files, ops[..i]), ops[i])
  }

  /** Each open receiver's .part file holds as many bytes as it counted. */
  ghost predicate OnDisk(e: Entry, files: Files) {
    e.progress.isOpen ==>
      && e.progress.status == Receiving && PartPath(e.offer.dest) in files
      && |files[PartPath(e.offer.dest)]| == e.progress.bytesReceived
  }

  ghost predicate AllOnDisk(s: State) {
    && (forall k :: k in s.table ==> OnDisk(s.table[k], s.files))
    && (forall j, k :: j in s.table && k in s.table && j != k ==>
      Separate(s.table[j].offer.dest, s.table[k].offer.dest))
  }

  ghost predicate TicketsApart(s: State) {
    forall i, k :: 0 <= i < |s.tickets| && !s.tickets[i].stale && k in s.table
                   ==> Separate(s.tickets[i].dest, s.table[k].offer.dest)
  }

  /** A call on one receiver leaves every separate receiver's file alone. */
  lemma OthersUndisturbed(l: Limits, s: State, op: Op, k: Id)
    requires AllOnDisk(s) && !op.Validate? && !op.Create? && op.id in s.table && k in s.table && k != op.id
    ensures OnDisk(s.table[k], Call(l, s, op).files)
  {
    PartsDiffer(s.table[op.id].offer.dest, s.table[k].offer.dest);
  }

  lemma OwnFileKept(l: Limits, s: State, op: Op)
    requires AllOnDisk(s) && !op.Validate? && !op.Create? && !op.Remove? && op.id in s.table
    ensures var t := Call(l, s, op);
            && t.table.Keys == s.table.Keys && t.tickets == s.tickets && OnDisk(t.table[op.id], t.files)
            && (forall k :: k in s.table ==> t.table[k].offer == s.table[k].offer)
            && (forall k :: k in s.table && k != op.id ==> t.table[k] == s.table[k])
  {}

  lemma CallKeepsOnDisk(l: Limits, s: State, op: Op)
    requires AllOnDisk(s) && TicketsApart(s) && !op.Validate? && !op.Create? && op.id in s.table
    ensures AllOnDisk(Call(l, s, op)) && TicketsApart(Call(l, s, op))
  {
    var t := Call(l, s, op);
    if !op.Remove? {
      OwnFileKept(l, s, op);
      forall k | k in t.table ensures OnDisk(t.table[k], t.files) {
        if k != op.id { OthersUndisturbed(l, s, op, k); }
      }
    }
  }

  lemma ValidateKeepsApart(l: Limits, s: State, op: Op)
    requires TicketsApart(s) && NamedApartFromAll(l, s, op) && op.Validate?
    ensures TicketsApart(Next(l, s, op))
  {
    if Accepts(l, s, op) {
      var path := FirstFreePath(s.files.Keys, l.dir, SafeName(op.filename).value);
      forall k | k in s.table ensures Separate(path, s.table[k].offer.dest) {
        SeparationOfFree(s.files.Keys, path, s.table[k].offer.dest);
      }
    }
  }

  lemma StepKeepsOnDisk(l: Limits, s: State, op: Op)
    requires AllOnDisk(s) && TicketsApart(s) && Orderly(s, op) && NamedApartFromAll(l, s, op)
    ensures AllOnDisk(Next(l, s, op)) && TicketsApart(Next(l, s, op))
  {
    if op.Validate? {
      ValidateKeepsApart(l, s, op);
    } else if !op.Create? && op.id in s.table {
      CallKeepsOnDisk(l, s, op);
    }
  }

  /** Then each open .part file holds exactly what its receiver counted, whatever
    * is called on the others. */
  lemma {:induction false} AlwaysOnDisk(l: Limits, files: Files, ops: seq<Op>)
    requires OrderlyRun(l, files, ops) && NamedApartFromAllRun(l, files, ops)
    ensures AllOnDisk(After(l, files, ops)) && TicketsApart(After(l, files, ops))
  {
    if ops != [] {
      var before := ops[..|ops| - 1];
      assert forall i :: 0 <= i < |before| ==> ops[..i] == before[..i];
      AlwaysOnDisk(l, files, before);
      StepKeepsOnDisk(l, After(l, files, before), ops[|ops| - 1]);
    }
  }
}
