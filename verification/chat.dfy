/** chat.py: delivery tracking of sent messages. send_chat awaits the network
  * once, so it is two steps here, with anything in between. */
module Chats {
  type Id = string

  const AckTimeout: real := 5.0
  const MaxChatTextSize := 64 * 1024

  datatype Status = Delivered | Failed

  /** Tracked messages, live timeout tasks by deadline, and every status
    * change reported so far. */
  datatype Chat = Chat(pending: set<Id>, timers: map<Id, real>, reports: seq<(Id, Status)>)

  const Quiet := Chat({}, map[], [])

  function Report(c: Chat, id: Id, status: Status): Chat { c.(reports := c.reports + [(id, status)]) }

  /** send_chat up to the await; true when it goes on to send. */
  function BeginSend(c: Chat, id: Id, textBytes: nat): (Chat, bool) {
    if textBytes > MaxChatTextSize then (Report(c, id, Failed), false)
    else (c.(pending := c.pending + {id}), true)
  }

  /** send_chat after the await; ok is what manager.send returned. */
  function EndSend(c: Chat, id: Id, ok: bool, now: real): Chat {
    if !ok then Report(c.(pending := c.pending - {id}), id, Failed)
    else if id !in c.pending then c
    else c.(timers := c.timers[id := now + AckTimeout])
  }

  function HandleAck(c: Chat, id: Id): Chat {
    if id !in c.pending then c
    else Report(c.(pending := c.pending - {id}, timers := c.timers - {id}), id, Delivered)
  }

  function TimeoutFires(c: Chat, id: Id): Chat {
    var d := c.(timers := c.timers - {id});
    if id !in d.pending then d else Report(d.(pending := d.pending - {id}), id, Failed)
  }

  class ChatSession {
    var pending: set<Id>
    var timers: map<Id, real>
    var reports: seq<(Id, Status)>

    constructor ()
      ensures Contents() == Quiet
    {
      pending, timers, reports := {}, map[], [];
    }

    function Contents(): Chat
      reads this
    {
      Chat(pending, timers, reports)
    }

    method NotifyStatus(id: Id, status: Status)
      modifies this`reports
      ensures reports == old(reports) + [(id, status)]
    {
      reports := reports + [(id, status)];
    }

    method SendChat(id: Id, textBytes: nat) returns (sending: bool)
      modifies this
      ensures (Contents(), sending) == BeginSend(old(Contents()), id, textBytes)
    {
      if textBytes > MaxChatTextSize {
        NotifyStatus(id, Failed);
        return false;
      }
      pending := pending + {id};
      return true;
    }

    method SendReturned(id: Id, ok: bool, now: real)
      modifies this
      ensures Contents() == EndSend(old(Contents()), id, ok, now)
    {
      if !ok {
        pending := pending - {id};
        NotifyStatus(id, Failed);
        return;
      }
      if id !in pending {
        return;
      }
      timers := timers[id := now + AckTimeout];
    }

    method AckReceived(id: Id)
      modifies this
      ensures Contents() == HandleAck(old(Contents()), id)
    {
      if id !in pending {
        return;
      }
      timers := timers - {id};
      pending := pending - {id};
      NotifyStatus(id, Delivered);
    }

    method TimeoutWatcher(id: Id)
      modifies this
      ensures Contents() == TimeoutFires(old(Contents()), id)
    {
      timers := timers - {id};
      if id !in pending {
        return;
      }
      pending := pending - {id};
      NotifyStatus(id, Failed);
    }
  }

  // ---- Every interleaving ----------------------------------------------------------------------------

  datatype Op =
    | Begin(id: Id, textBytes: nat)
    | End(id: Id, ok: bool, now: real)
    | Ack(id: Id)
    | Timeout(id: Id, now: real)

  /** The session with the ids used so far and the sends that are awaiting. */
  datatype Run = Run(chat: Chat, used: set<Id>, sending: set<Id>)

  /** Ids are fresh, a send returns once, and a timer fires only when live and
    * due. Acks may come at any time, for anything. */
  predicate Legal(r: Run, op: Op) {
    match op
    case Begin(id, _) => id !in r.used
    case End(id, _, _) => id in r.sending
    case Ack(_) => true
    case Timeout(id, now) => id in r.chat.timers && r.chat.timers[id] <= now
  }

  function Next(r: Run, op: Op): Run {
    match op
    case Begin(id, textBytes) =>
      var (c, goes) := BeginSend(r.chat, id, textBytes);
      Run(c, r.used + {id}, if goes then r.sending + {id} else r.sending)
    case End(id, ok, now) => r.(chat := EndSend(r.chat, id, ok, now), sending := r.sending - {id})
    case Ack(id) => r.(chat := HandleAck(r.chat, id))
    case Timeout(id, _) => r.(chat := TimeoutFires(r.chat, id))
  }

  function After(ops: seq<Op>): Run {
    if ops == [] then Run(Quiet, {}, {}) else Next(After(ops[..|ops| - 1]), ops[|ops| - 1])
  }

  ghost predicate LegalRun(ops: seq<Op>) {
    forall i :: 0 <= i < |ops| ==> Legal(After(ops[..i]), ops[i])
  }

  function Count(reports: seq<(Id, Status)>, id: Id): nat {
    if reports == [] then 0
    else Count(reports[..|reports| - 1], id) + (if reports[|reports| - 1].0 == id then 1 else 0)
  }

  /** An ack for id is handled while its send is awaiting. */
  ghost predicate AckedDuringSend(ops: seq<Op>, id: Id) {
    exists j :: 0 <= j < |ops| && ops[j] == Ack(id) && id in After(ops[..j]).sending
  }

  /** That send then reports failure. */
  ghost predicate SendFailed(ops: seq<Op>, id: Id) {
    exists k :: 0 <= k < |ops| && ops[k].End? && ops[k].id == id && !ops[k].ok
  }

  // ---- The invariant ------------------------------------------------------------------------------------

  ghost predicate Inv(ops: seq<Op>) {
    var r := After(ops);
    && r.chat.pending <= r.used && r.sending <= r.used
    // each tracked message past its send has a live timer, and no other has
    && r.chat.timers.Keys == r.chat.pending - r.sending
    // the tracked messages are exactly those with no status reported
    && (forall id :: id in r.used ==> (id in r.chat.pending <==> Count(r.chat.reports, id) == 0))
    && (forall id :: id !in r.used ==> Count(r.chat.reports, id) == 0)
  }

  lemma LegalPrefix(ops: seq<Op>)
    requires LegalRun(ops) && ops != []
    ensures LegalRun(ops[..|ops| - 1]) && Legal(After(ops[..|ops| - 1]), ops[|ops| - 1])
  {
    var before := ops[..|ops| - 1];
    assert forall i :: 0 <= i < |before| ==> ops[..i] == before[..i];
  }

  lemma CountsAfter(r: Run, op: Op, id: Id)
    ensures var n := Count(r.chat.reports, id); var m := Count(Next(r, op).chat.reports, id);
            m == n + (if op.id == id && Reports(r, op) then 1 else 0)
  {}

  /** The steps that report a status. */
  predicate Reports(r: Run, op: Op) {
    match op
    case Begin(_, n) => n > MaxChatTextSize
    case End(_, ok, _) => !ok
    case Ack(id) => id in r.chat.pending
    case Timeout(id, _) => id in r.chat.pending
  }

  lemma {:induction false} AlwaysInv(ops: seq<Op>)
    requires LegalRun(ops)
    ensures Inv(ops)
  {
    if ops != [] {
      var before, op := ops[..|ops| - 1], ops[|ops| - 1];
      LegalPrefix(ops);
      AlwaysInv(before);
      forall id ensures Count(After(ops).chat.reports, id)
                     == Count(After(before).chat.reports, id)
                       + (if op.id == id && Reports(After(before), op) then 1 else 0)
      {
        CountsAfter(After(before), op, id);
      }
    }
  }

  // ---- Exactly when a message gets a second status -----------------------------------------------------

  lemma AckedStep(ops: seq<Op>, id: Id)
    requires ops != []
    ensures var before, op := ops[..|ops| - 1], ops[|ops| - 1];
            AckedDuringSend(ops, id) <==> AckedDuringSend(before, id) || (op == Ack(id) && id in After(before).sending)
  {
    var before := ops[..|ops| - 1];
    assert forall j :: 0 <= j < |before| ==> ops[..j] == before[..j];
    if AckedDuringSend(before, id) {
      var j :| 0 <= j < |before| && before[j] == Ack(id) && id in After(before[..j]).sending;
      assert ops[j] == Ack(id);
    }
    assert ops[|before|] == ops[|ops| - 1];
  }

  lemma FailedStep(ops: seq<Op>, id: Id)
    requires ops != []
    ensures var before, op := ops[..|ops| - 1], ops[|ops| - 1];
            SendFailed(ops, id) <==> SendFailed(before, id) || (op.End? && op.id == id && !op.ok)
  {
    var before := ops[..|ops| - 1];
    if SendFailed(before, id) {
      var k :| 0 <= k < |before| && before[k].End? && before[k].id == id && !before[k].ok;
      assert ops[k] == before[k];
    }
    assert ops[|before|] == ops[|ops| - 1];
  }

  /** How far one message has got. */
  ghost predicate Traced(ops: seq<Op>, id: Id) {
    var r := After(ops);
    var n := Count(r.chat.reports, id);
    if id !in r.used then !AckedDuringSend(ops, id) && !SendFailed(ops, id)
    else if id in r.sending then !SendFailed(ops, id) && n <= 1 && (AckedDuringSend(ops, id) <==> id !in r.chat.pending)
    else n <= 2 && (n == 2 <==> AckedDuringSend(ops, id) && SendFailed(ops, id))
  }

  lemma TracedStep(ops: seq<Op>, id: Id)
    requires LegalRun(ops) && ops != [] && Inv(ops[..|ops| - 1]) && Traced(ops[..|ops| - 1], id)
    ensures Traced(ops, id)
  {
    LegalPrefix(ops);
    AckedStep(ops, id);
    FailedStep(ops, id);
    CountsAfter(After(ops[..|ops| - 1]), ops[|ops| - 1], id);
  }

  lemma {:induction false} AlwaysTraced(ops: seq<Op>, id: Id)
    requires LegalRun(ops)
    ensures Traced(ops, id)
  {
    if ops != [] {
      LegalPrefix(ops);
      AlwaysInv(ops[..|ops| - 1]);
      AlwaysTraced(ops[..|ops| - 1], id);
      TracedStep(ops, id);
    }
  }

  /** In every interleaving a message is reported at most twice, and at most
    * once unless an ack for it was handled during a send that then failed. */
  lemma OneStatusUnlessAckedDuringFailedSend(ops: seq<Op>, id: Id)
    requires LegalRun(ops)
    ensures Count(After(ops).chat.reports, id) <= 2
    ensures Count(After(ops).chat.reports, id) == 2 <==> AckedDuringSend(ops, id) && SendFailed(ops, id)
  {
    AlwaysTraced(ops, id);
    AlwaysInv(ops);
  }

  /** The shortest run with two statuses. */
  lemma TwoStatuses(id: Id, now: real)
    ensures var ops := [Begin(id, 0), Ack(id), End(id, false, now)];
            LegalRun(ops) && After(ops).chat.reports == [(id, Delivered), (id, Failed)]
  {
    var b, a, e := Begin(id, 0), Ack(id), End(id, false, now);
    assert [b, a, e][..2] == [b, a] && [b, a, e][..1] == [b] && [b, a, e][..0] == [];
    assert [b, a][..1] == [b] && [b][..0] == [];
    assert After([b]) == Run(Quiet.(pending := {id}), {id}, {id});
    assert After([b, a]) == Run(Chat({}, map[], [(id, Delivered)]), {id}, {id});
  }

  /** Both kinds of status have their cause: delivery an ack for that id,
    * failure a text too long, a failed send or a timer run out. */
  ghost predicate Caused(ops: seq<Op>, id: Id, status: Status) {
    exists j :: 0 <= j < |ops| && ops[j].id == id &&
      match ops[j]
      case Ack(_) => status == Delivered
      case Begin(_, n) => status == Failed && n > MaxChatTextSize
      case End(_, ok, _) => status == Failed && !ok
      case Timeout(_, _) => status == Failed
  }

  lemma {:induction false} EveryStatusHasACause(ops: seq<Op>, i: nat)
    requires i < |After(ops).chat.reports|
    ensures Caused(ops, After(ops).chat.reports[i].0, After(ops).chat.reports[i].1)
  {
    if ops != [] {
      var before, op := ops[..|ops| - 1], ops[|ops| - 1];
      var (id, status) := After(ops).chat.reports[i];
      if i < |After(before).chat.reports| {
        EveryStatusHasACause(before, i);
        var j :| 0 <= j < |before| && before[j].id == id &&
          match before[j]
          case Ack(_) => status == Delivered
          case Begin(_, n) => status == Failed && n > MaxChatTextSize
          case End(_, ok, _) => status == Failed && !ok
          case Timeout(_, _) => status == Failed;
        assert ops[j] == before[j];
      } else {
        assert ops[|before|] == op;
      }
    }
  }

  /** Operation j delivers a message: an ack for one that was begun and has no
    * status yet. */
  ghost predicate DeliversAt(ops: seq<Op>, j: nat, id: Id) {
    && j < |ops| && ops[j] == Ack(id)
    && id in After(ops[..j]).used && Count(After(ops[..j]).chat.reports, id) == 0
  }

  /** Operation j fails a message: more than 64 KiB of text, a failed send, or a
    * timer that ran out. */
  ghost predicate FailsAt(ops: seq<Op>, j: nat, id: Id) {
    && j < |ops| && ops[j].id == id
    && match ops[j]
       case Begin(_, n) => n > 65536
       case End(_, ok, _) => !ok
       case Timeout(_, _) => true
       case Ack(_) => false
  }

  ghost predicate Delivers(ops: seq<Op>, id: Id) { exists j: nat :: DeliversAt(ops, j, id) }

  ghost predicate Fails(ops: seq<Op>, id: Id) { exists j: nat :: FailsAt(ops, j, id) }

  lemma DeliversStep(ops: seq<Op>, id: Id)
    requires ops != []
    ensures Delivers(ops, id) <==> Delivers(ops[..|ops| - 1], id) || DeliversAt(ops, |ops| - 1, id)
    ensures Fails(ops, id) <==> Fails(ops[..|ops| - 1], id) || FailsAt(ops, |ops| - 1, id)
  {
    var n := |ops| - 1;
    forall j: nat | j < n
      ensures DeliversAt(ops[..n], j, id) <==> DeliversAt(ops, j, id)
      ensures FailsAt(ops[..n], j, id) <==> FailsAt(ops, j, id)
    {
      assert ops[..n][..j] == ops[..j];
    }
    if Delivers(ops[..n], id) {
      var j: nat :| DeliversAt(ops[..n], j, id);
      assert DeliversAt(ops, j, id);
    }
    if Fails(ops[..n], id) {
      var j: nat :| FailsAt(ops[..n], j, id);
      assert FailsAt(ops, j, id);
    }
    if Delivers(ops, id) {
      var j: nat :| DeliversAt(ops, j, id);
      assert j < n ==> DeliversAt(ops[..n], j, id);
    }
    if Fails(ops, id) {
      var j: nat :| FailsAt(ops, j, id);
      assert j < n ==> FailsAt(ops[..n], j, id);
    }
  }

  /** What one operation reports. */
  lemma ReportStep(r: Run, op: Op, id: Id)
    requires Legal(r, op)
    requires r.chat.timers.Keys == r.chat.pending - r.sending
    requires forall d :: d in r.used ==> (d in r.chat.pending <==> Count(r.chat.reports, d) == 0)
    requires r.chat.pending <= r.used
    ensures var before, after := r.chat.reports, Next(r, op).chat.reports;
            && ((id, Delivered) in after <==>
                  (id, Delivered) in before || (op == Ack(id) && id in r.used && Count(before, id) == 0))
            && ((id, Failed) in after <==>
                  || (id, Failed) in before
                  || (op.id == id && (op.Begin? ==> op.textBytes > 65536) && (op.End? ==> !op.ok) && !op.Ack?))
  {
    var before, after := r.chat.reports, Next(r, op).chat.reports;
    assert after == before || (|after| == |before| + 1 && after[..|before|] == before);
    assert forall p :: p in after <==> p in before || (|after| > |before| && p == after[|before|]);
  }

  /** In every interleaving a message is reported delivered exactly when an ack for
    * it was handled while it had no status, and failed exactly when its text was
    * too long, its send failed or its timer ran out. */
  lemma {:induction false} StatusesExactly(ops: seq<Op>, id: Id)
    requires LegalRun(ops)
    ensures (id, Delivered) in After(ops).chat.reports <==> Delivers(ops, id)
    ensures (id, Failed) in After(ops).chat.reports <==> Fails(ops, id)
  {
    if ops != [] {
      var before, op := ops[..|ops| - 1], ops[|ops| - 1];
      LegalPrefix(ops);
      AlwaysInv(before);
      StatusesExactly(before, id);
      DeliversStep(ops, id);
      ReportStep(After(before), op, id);
    }
  }

  /** A live timer is due five seconds after the send it watches returned. */
  lemma {:induction false} TimerIsDueAfterSend(ops: seq<Op>, id: Id)
    requires id in After(ops).chat.timers
    ensures exists k :: 0 <= k < |ops| && ops[k].End? && ops[k].id == id && ops[k].ok
                        && After(ops).chat.timers[id] == ops[k].now + 5.0
  {
    if ops != [] {
      var before, op := ops[..|ops| - 1], ops[|ops| - 1];
      if op.End? && op.id == id && op.ok && id in After(before).chat.pending {
        assert ops[|before|] == op;
      } else {
        TimerIsDueAfterSend(before, id);
        var k :| 0 <= k < |before| && before[k].End? && before[k].id == id && before[k].ok
                 && After(before).chat.timers[id] == before[k].now + 5.0;
        assert ops[k] == before[k];
      }
    }
  }
}
