/** file_transfer.py: one side's handlers. A session has a sending half and a
  * receiving half with separate tables; a transfer joins the sending half of
  * one session with the receiving half of the other. */
module TransferSessions {
  import opened Wrappers
  import opened Bytes
  import opened FileReceivers
  import opened DestPaths

  type Id = string

  /** Messages from the sending to the receiving half. */
  datatype Fwd =
    | OfferMsg(id: Id, filename: string, size: nat, checksum: string)
    | DataMsg(id: Id, sequence: int, offset: int, data: Bytes)
    | DoneMsg(id: Id)

  /** Messages from the receiving to the sending half. */
  datatype Back = AcceptMsg(id: Id) | RejectMsg(id: Id) | AckMsg(id: Id, success: bool)

  // ---- The sending half ----------------------------------------------------------------------------

  /** Whether a transfer is in _outgoing: not yet, now, or no longer. */
  datatype Listing = Announced | Listed | Unlisted

  /** file is the content when the offer was made. */
  datatype Outgoing = Outgoing(file: Bytes, listing: Listing, ackSet: bool, ackSuccess: bool)

  datatype Phase = Streaming | AwaitingAck | Ended

  /** A running _send_chunks: the next chunk's place and number. */
  datatype Task = Task(id: Id, offset: nat, sequence: nat, phase: Phase)

  datatype Sender = Sender(tx: map<Id, Outgoing>, tasks: seq<Task>, reports: seq<(Id, bool)>)

  predicate IsListed(s: Sender, id: Id) { id in s.tx && s.tx[id].listing == Listed }

  function Unlist(s: Sender, id: Id): Sender {
    if IsListed(s, id) then s.(tx := s.tx[id := s.tx[id].(listing := Unlisted)]) else s
  }

  /** Notify completion and drop the transfer from _outgoing. */
  function Settle(s: Sender, id: Id, success: bool): Sender {
    Unlist(s, id).(reports := s.reports + [(id, success)])
  }

  function HandleAccept(s: Sender, id: Id): Sender {
    if !IsListed(s, id) then s else s.(tasks := s.tasks + [Task(id, 0, 0, Streaming)])
  }

  function HandleReject(s: Sender, id: Id): Sender {
    if !IsListed(s, id) then s else Settle(s, id, false)
  }

  function HandleCompleteAck(s: Sender, id: Id, success: bool): Sender {
    if !IsListed(s, id) then s else s.(tx := s.tx[id := s.tx[id].(ackSet := true, ackSuccess := success)])
  }

  /** One round of the chunk loop: data was read and sent, or the send failed. */
  function SendChunk(s: Sender, i: nat, data: Bytes, ok: bool): Sender
    requires i < |s.tasks|
  {
    var t := s.tasks[i];
    if ok then s.(tasks := s.tasks[i := t.(offset := t.offset + |data|, sequence := t.sequence + 1)])
    else EndTask(s, i, false)
  }

  function EndTask(s: Sender, i: nat, success: bool): Sender
    requires i < |s.tasks|
  {
    Settle(s.(tasks := s.tasks[i := s.tasks[i].(phase := Ended)]), s.tasks[i].id, success)
  }

  function AwaitAck(s: Sender, i: nat): Sender
    requires i < |s.tasks|
  {
    s.(tasks := s.tasks[i := s.tasks[i].(phase := AwaitingAck)])
  }

  // ---- The receiving half --------------------------------------------------------------------------

  /** Where an offer stands. Incoming is an entry of _incoming; node is the
    * file its handle writes to. Finishing has answered file_done and waits
    * to rename or clean up. Crashed hit a missing .part file. Stored was renamed
    * to its destination, Resolved ended in failure. */
  datatype Rx =
    | Asked(size: nat, checksum: string, dest: Path)
    | Incoming(size: nat, checksum: string, dest: Path, node: nat, bytesReceived: nat, expectedIndex: nat)
    | Finishing(dest: Path, node: nat, success: bool)
    | Stored(dest: Path, node: nat)
    | Refused | Crashed | Resolved

  /** Path names point to file nodes; a handle keeps its node when the name is
    * removed or reused. verified notes what was staged when a transfer was
    * acknowledged, resolved what was reported. */
  datatype Receiver = Receiver(rx: map<Id, Rx>, names: map<Path, nat>, nodes: seq<Bytes>,
                               verified: map<Id, Bytes>, resolved: seq<(Id, bool)>)

  predicate IsIncoming(r: Receiver, id: Id) { id in r.rx && r.rx[id].Incoming? }

  /** Size, disk space and name, the reasons to refuse without asking. */
  predicate OfferRefused(m: Fwd, free: Option<nat>)
    requires m.OfferMsg?
  {
    m.size > MaxIncomingFileSize || !CheckDiskSpace(free, m.size) || SafeName(m.filename).None?
  }

  /** The path the name search gives an offer. */
  ghost function OfferPath(r: Receiver, dir: Path, m: Fwd): Path
    requires m.OfferMsg? && SafeName(m.filename).Some?
  {
    FirstFreePath(r.names.Keys, dir, SafeName(m.filename).value)
  }

  /** An offer that passed the checks waits for the user's decision. */
  function AskUser(r: Receiver, m: Fwd, dest: Path): Receiver
    requires m.OfferMsg?
  {
    r.(rx := r.rx[m.id := Asked(m.size, m.checksum, dest)])
  }

  function Refuse(r: Receiver, id: Id): Receiver { r.(rx := r.rx[id := Refused]) }

  /** The stale .part is removed and a new file opened for writing. */
  function AcceptOffer(r: Receiver, id: Id): Receiver
    requires id in r.rx && r.rx[id].Asked?
  {
    var a := r.rx[id];
    r.(rx := r.rx[id := Incoming(a.size, a.checksum, a.dest, |r.nodes|, 0, 0)],
       names := r.names[PartPath(a.dest) := |r.nodes|], nodes := r.nodes + [[]])
  }

  function AbortIncoming(r: Receiver, id: Id): Receiver
    requires IsIncoming(r, id)
  {
    var dest := r.rx[id].dest;
    r.(rx := r.rx[id := Resolved], names := r.names - {PartPath(dest), dest}, resolved := r.resolved + [(id, false)])
  }

  predicate ChunkFits(x: Rx, m: Fwd)
    requires x.Incoming? && m.DataMsg?
  {
    m.sequence == x.expectedIndex && m.offset == x.bytesReceived && x.bytesReceived + |m.data| <= x.size
  }

  function HandleChunk(r: Receiver, m: Fwd): (Receiver, seq<Back>)
    requires m.DataMsg?
  {
    if !IsIncoming(r, m.id) then (r, []) else
    var x := r.rx[m.id];
    if !ChunkFits(x, m) then (AbortIncoming(r, m.id), [AckMsg(m.id, false)])
    else if x.node >= |r.nodes| then (r, [])
    else (r.(nodes := r.nodes[x.node := r.nodes[x.node] + m.data],
             rx := r.rx[m.id := x.(bytesReceived := x.bytesReceived + |m.data|,
               expectedIndex := x.expectedIndex + 1)]), [])
  }

  /** The bytes the .part path leads to. */
  function StagedAt(r: Receiver, dest: Path): Option<Bytes> {
    if PartPath(dest) in r.names
      && r.names[PartPath(dest)] < |r.nodes| then Some(r.nodes[r.names[PartPath(dest)]]) else None
  }

  function HandleDone(digest: Digest, r: Receiver, id: Id): (Receiver, seq<Back>) {
    if !IsIncoming(r, id) then (r, []) else
    var x := r.rx[id];
    match StagedAt(r, x.dest)
    case None => (r.(rx := r.rx[id := Crashed]), [])
    case Some(staged) =>
      var success := digest(staged) == x.checksum && x.bytesReceived == x.size;
      (r.(rx := r.rx[id := Finishing(x.dest, x.node, success)], verified := if success then
        r.verified[id := staged] else r.verified),
       [AckMsg(id, success)])
  }

  /** After the acknowledgement went out: rename, or clean up. */
  function FinishDone(r: Receiver, id: Id): Receiver
    requires id in r.rx && r.rx[id].Finishing?
  {
    var Finishing(dest, _, success) := r.rx[id];
    var part := PartPath(dest);
    if !success then r.(rx := r.rx[id := Resolved], names := r.names - {part}, resolved := r.resolved + [(id, false)])
    else if part !in r.names then r.(rx := r.rx[id := Crashed])
    else r.(rx := r.rx[id := Stored(dest, r.names[part])], names := (r.names - {part})[dest := r.names[part]],
            resolved := r.resolved + [(id, true)])
  }

  /** The two tables and the file system of one session, changed in place by
    * its handlers; out is what the handler hands to the connection. */
  class FileTransferSession {
    const digest: Digest
    const dir: Path
    var tx: map<Id, Outgoing>
    var tasks: seq<Task>
    var reports: seq<(Id, bool)>
    var rx: map<Id, Rx>
    var names: map<Path, nat>
    var nodes: seq<Bytes>
    ghost var verified: map<Id, Bytes>
    var resolved: seq<(Id, bool)>

    constructor (digest: Digest, dir: Path, names: map<Path, nat>, nodes: seq<Bytes>)
      ensures this.digest == digest && this.dir == dir
      ensures Sending() == Sender(map[], [], []) && Receiving() == Receiver(map[], names, nodes, map[], [])
    {
      this.digest, this.dir, this.names, this.nodes := digest, dir, names, nodes;
      tx, tasks, reports := map[], [], [];
      rx, verified, resolved := map[], map[], [];
    }

    function Sending(): Sender
      reads this
    {
      Sender(tx, tasks, reports)
    }

    ghost function Receiving(): Receiver
      reads this
    {
      Receiver(rx, names, nodes, verified, resolved)
    }

    method OnAccept(id: Id)
      modifies this
      ensures Sending() == HandleAccept(old(Sending()), id) && Receiving() == old(Receiving())
    {
      if id in tx && tx[id].listing == Listed {
        tasks := tasks + [Task(id, 0, 0, Streaming)];
      }
    }

    method OnReject(id: Id)
      modifies this
      ensures Sending() == HandleReject(old(Sending()), id) && Receiving() == old(Receiving())
    {
      if id in tx && tx[id].listing == Listed {
        reports := reports + [(id, false)];
        tx := tx[id := tx[id].(listing := Unlisted)];
      }
    }

    method OnCompleteAck(id: Id, success: bool)
      modifies this
      ensures Sending() == HandleCompleteAck(old(Sending()), id, success) && Receiving() == old(Receiving())
    {
      if id in tx && tx[id].listing == Listed {
        tx := tx[id := tx[id].(ackSet := true, ackSuccess := success)];
      }
    }

    /** _handle_offer up to the question to the user. */
    method OnOffer(m: Fwd, free: Option<nat>) returns (out: seq<Back>)
      requires m.OfferMsg?
      modifies this
      ensures Sending() == old(Sending())
      ensures if OfferRefused(m, free) then Receiving() == Refuse(old(Receiving()), m.id) && out == [RejectMsg(m.id)]
              else Receiving() == AskUser(old(Receiving()), m, OfferPath(old(Receiving()), dir, m)) && out == []
    {
      if m.size > MaxIncomingFileSize || !CheckDiskSpace(free, m.size) {
        rx := rx[m.id := Refused];
        return [RejectMsg(m.id)];
      }
      var path := ResolveSafeDestPath(m.filename, dir, names.Keys);
      if path.Err? {
        rx := rx[m.id := Refused];
        return [RejectMsg(m.id)];
      }
      rx := rx[m.id := Asked(m.size, m.checksum, path.value)];
      return [];
    }

    /** The rest of _handle_offer, once the user has decided. */
    method OnDecision(id: Id, accept: bool) returns (out: seq<Back>)
      requires id in rx && rx[id].Asked?
      modifies this
      ensures Receiving() == (if accept then AcceptOffer(old(Receiving()), id) else Refuse(old(Receiving()), id))
      ensures out == [if accept then AcceptMsg(id) else RejectMsg(id)] && Sending() == old(Sending())
    {
      if !accept {
        rx := rx[id := Refused];
        return [RejectMsg(id)];
      }
      var a := rx[id];
      var part := PartPath(a.dest);
      names := names - {part};
      var node := |nodes|;
      nodes := nodes + [[]];
      names := names[part := node];
      assert names == old(names)[part := node];
      rx := rx[id := Incoming(a.size, a.checksum, a.dest, node, 0, 0)];
      return [AcceptMsg(id)];
    }

    method OnChunk(m: Fwd) returns (out: seq<Back>)
      requires m.DataMsg?
      modifies this
      ensures (Receiving(), out) == HandleChunk(old(Receiving()), m) && Sending() == old(Sending())
    {
      out := [];
      if m.id !in rx || !rx[m.id].Incoming? {
        return;
      }
      var x := rx[m.id];
      if m.sequence != x.expectedIndex || m.offset != x.bytesReceived || x.bytesReceived + |m.data| > x.size {
        out := Abort(m.id);
        return;
      }
      if x.node < |nodes| {
        nodes := nodes[x.node := nodes[x.node] + m.data];
        rx := rx[m.id := x.(bytesReceived := x.bytesReceived + |m.data|, expectedIndex := x.expectedIndex + 1)];
      }
    }

    method Abort(id: Id) returns (out: seq<Back>)
      requires id in rx && rx[id].Incoming?
      modifies this
      ensures Receiving() == AbortIncoming(old(Receiving()), id) && out == [AckMsg(id, false)]
      ensures Sending() == old(Sending())
    {
      var dest := rx[id].dest;
      rx := rx[id := Resolved];
      names := names - {PartPath(dest)};
      names := names - {dest};
      assert names == old(names) - {PartPath(dest), dest};
      resolved := resolved + [(id, false)];
      out := [AckMsg(id, false)];
    }

    method OnDone(id: Id) returns (out: seq<Back>)
      modifies this
      ensures (Receiving(), out) == HandleDone(digest, old(Receiving()), id) && Sending() == old(Sending())
    {
      out := [];
      if id !in rx || !rx[id].Incoming? {
        return;
      }
      var x := rx[id];
      var part := PartPath(x.dest);
      if part !in names || names[part] >= |nodes| {
        rx := rx[id := Crashed];
        return;
      }
      var staged := nodes[names[part]];
      var success := digest(staged) == x.checksum && x.bytesReceived == x.size;
      rx := rx[id := Finishing(x.dest, x.node, success)];
      if success {
        verified := verified[id := staged];
      }
      out := [AckMsg(id, success)];
    }

    method AfterAck(id: Id)
      requires id in rx && rx[id].Finishing?
      modifies this
      ensures Receiving() == FinishDone(old(Receiving()), id) && Sending() == old(Sending())
    {
      var Finishing(dest, _, success) := rx[id];
      var part := PartPath(dest);
      if !success {
        names := names - {part};
        rx, resolved := rx[id := Resolved], resolved + [(id, false)];
      } else if part !in names {
        rx := rx[id := Crashed];
      } else {
        var node := names[part];
        names := (names - {part})[dest := node];
        rx, resolved := rx[id := Stored(dest, node)], resolved + [(id, true)];
      }
    }
  }

  // ---- Sessions and the connections between them -------------------------------------------------------

  type Connection = nat

  /** A receiving half, the sending halves it deals with, and the messages on
    * their way. via is the connection each transfer is made over. fwd and back
    * hold the messages of all connections; only the order within a connection
    * means anything. A broken connection loses its last messages. */
  datatype Link = Link(s: Sender, r: Receiver, fwd: seq<Fwd>, back: seq<Back>, dir: Path, via: Id -> Connection)

  /** The read loop of a connection awaits each handler: while one waits for the
    * user, or has answered file_done and not yet renamed, nothing else is read. */
  ghost predicate Busy(l: Link, c: Connection) {
    exists id :: id in l.r.rx && l.via(id) == c && (l.r.rx[id].Asked? || l.r.rx[id].Finishing?)
  }

  /** The first message on its way can be read. */
  ghost predicate Readable(l: Link) { l.fwd != [] && !Busy(l, l.via(l.fwd[0].id)) }

  function Exchanged<T>(channel: seq<T>, p: nat): seq<T>
    requires p + 1 < |channel|
  {
    channel[p := channel[p + 1]][p + 1 := channel[p]]
  }

  /** ok is what the connection's send returned: false loses the message. free
    * is the disk space found, refuse and dest the verdict and path it leads to. */
  datatype Step =
    | Offer(id: Id, filename: string, file: Bytes, ok: bool)
    | List(id: Id)
    | ReceiveOffer(free: Option<nat>, refuse: bool, dest: Path, ok: bool)
    | Decide(id: Id, accept: bool, ok: bool)
    | ReceiveAnswer
    | TaskSends(i: nat, data: Bytes, ok: bool)
    | TaskDone(i: nat, ok: bool)
    | ReceiveData(ok: bool)
    | ReceiveDone(ok: bool)
    | Rename(id: Id)
    | ReceiveAck
    | TaskGetsAck(i: nat)
    | TaskGivesUp(i: nat)
    | Break(keepFwd: nat, keepBack: nat)
    | Reorder(p: nat)
    | ReorderBack(p: nat)

  function Push<T>(channel: seq<T>, out: seq<T>, ok: bool): seq<T> { if ok then channel + out else channel }

  predicate Running(s: Sender, i: nat, phase: Phase) { i < |s.tasks| && s.tasks[i].phase == phase }

  ghost predicate Enabled(l: Link, step: Step) {
    match step
    case Offer(id, _, _, _) => id !in l.s.tx
    case List(id) => id in l.s.tx && l.s.tx[id].listing == Announced
    case ReceiveOffer(free, refuse, dest, _) =>
      && Readable(l) && l.fwd[0].OfferMsg?
      && (refuse <==> OfferRefused(l.fwd[0], free))
      && (!refuse ==> dest == OfferPath(l.r, l.dir, l.fwd[0]))
    case Decide(id, _, _) => id in l.r.rx && l.r.rx[id].Asked?
    case ReceiveAnswer => l.back != [] && !l.back[0].AckMsg?
    case TaskSends(i, data, _) => Running(l.s, i, Streaming) && data != []
    case TaskDone(i, _) => Running(l.s, i, Streaming)
    case ReceiveData(_) => Readable(l) && l.fwd[0].DataMsg?
    case ReceiveDone(_) => Readable(l) && l.fwd[0].DoneMsg?
    case Rename(id) => id in l.r.rx && l.r.rx[id].Finishing?
    case ReceiveAck => l.back != [] && l.back[0].AckMsg?
    case TaskGetsAck(i) => Running(l.s, i, AwaitingAck) && l.s.tasks[i].id in l.s.tx && l.s.tx[l.s.tasks[i].id].ackSet
    case TaskGivesUp(i) => Running(l.s, i, Streaming) || Running(l.s, i, AwaitingAck)
    case Break(keepFwd, keepBack) => keepFwd <= |l.fwd| && keepBack <= |l.back|
    case Reorder(p) => p + 1 < |l.fwd| && l.via(l.fwd[p].id) != l.via(l.fwd[p + 1].id)
    case ReorderBack(p) => p + 1 < |l.back| && l.via(l.back[p].id) != l.via(l.back[p + 1].id)
  }

  ghost function Next(digest: Digest, l: Link, step: Step): Link
    requires Enabled(l, step)
  {
    var s, r := l.s, l.r;
    match step
    case Offer(id, filename, file, ok) =>
      // a send that failed leaves no transfer behind
      l.(s := s.(tx := s.tx[id := Outgoing(file, if ok then Announced else Unlisted, false, false)]),
         fwd := Push(l.fwd, [OfferMsg(id, filename, |file|, digest(file))], ok))
    case List(id) => l.(s := s.(tx := s.tx[id := s.tx[id].(listing := Listed)]))
    case ReceiveOffer(_, refuse, dest, ok) =>
      var m := l.fwd[0];
      if refuse then l.(r := Refuse(r, m.id), fwd := l.fwd[1..], back := Push(l.back, [RejectMsg(m.id)], ok))
      else l.(r := AskUser(r, m, dest), fwd := l.fwd[1..])
    case Decide(id, accept, ok) =>
      if accept then l.(r := AcceptOffer(r, id), back := Push(l.back, [AcceptMsg(id)], ok))
      else l.(r := Refuse(r, id), back := Push(l.back, [RejectMsg(id)], ok))
    case ReceiveAnswer =>
      l.(s := if l.back[0].AcceptMsg? then
        HandleAccept(s, l.back[0].id) else HandleReject(s, l.back[0].id), back := l.back[1..])
    case TaskSends(i, data, ok) =>
      var t := s.tasks[i];
      l.(s := SendChunk(s, i, data, ok), fwd := Push(l.fwd, [DataMsg(t.id, t.sequence, t.offset, data)], ok))
    case TaskDone(i, ok) => l.(s := AwaitAck(s, i), fwd := Push(l.fwd, [DoneMsg(s.tasks[i].id)], ok))
    case ReceiveData(ok) => var (r', out) := HandleChunk(r, l.fwd[0]);
      l.(r := r', fwd := l.fwd[1..], back := Push(l.back, out, ok))
    case ReceiveDone(ok) => var (r', out) := HandleDone(digest, r, l.fwd[0].id);
      l.(r := r', fwd := l.fwd[1..], back := Push(l.back, out, ok))
    case Rename(id) => l.(r := FinishDone(r, id))
    case ReceiveAck => l.(s := HandleCompleteAck(s, l.back[0].id, l.back[0].success), back := l.back[1..])
    case TaskGetsAck(i) => l.(s := EndTask(s, i, s.tx[s.tasks[i].id].ackSuccess))
    case TaskGivesUp(i) => l.(s := EndTask(s, i, false))
    case Break(keepFwd, keepBack) => l.(fwd := l.fwd[..keepFwd], back := l.back[..keepBack])
    case Reorder(p) => l.(fwd := Exchanged(l.fwd, p))
    case ReorderBack(p) => l.(back := Exchanged(l.back, p))
  }

  ghost predicate Execution(digest: Digest, trace: seq<Link>, steps: seq<Step>) {
    && |trace| == |steps| + 1
    && forall i :: 0 <= i < |steps| ==> Enabled(trace[i], steps[i]) && trace[i + 1] == Next(digest, trace[i], steps[i])
  }

  /** No transfers yet, on any file system and any connections. */
  ghost predicate Initial(l: Link) {
    && l.s == Sender(map[], [], []) && l.fwd == [] && l.back == []
    && l.r.rx == map[] && l.r.verified == map[] && l.r.resolved == []
    && forall p :: p in l.r.names ==> l.r.names[p] < |l.r.nodes|
  }
}
