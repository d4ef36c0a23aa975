/** Each row of the trust store read off the history of operations: what put it
  * there, what it says, and what a revocation does from then on. */
module TrustHistory {
  import opened Wrappers
  import opened TextCodes
  import opened Graph
  import opened TrustModel
  import opened TrustRuns

  // ---- A revocation takes effect --------------------------------------------------------------

  lemma RevokedAtOnce(s: Store, op: Op)
    requires op.Revoking? && op.id in s.devices && !HasStatus(s, op.id, TrustStatus.Revoked)
    ensures var t := Apply(s, op);
            && HasStatus(t, op.id, TrustStatus.Revoked) && t.transitions == s.transitions
            && t.devices == s.devices[op.id := t.devices[op.id]]
            && t.devices[op.id].revocation == Some(Revocation(op.revokedBy, op.now, op.reason))
            && t.devices[op.id].publicKey == s.devices[op.id].publicKey
  {}

  /** Revoking a device, in any store, revokes it for good: whatever is done
    * afterwards, its row says by whom, when and why, and every device that is
    * then in its component is refused. */
  lemma RevocationTakesEffect(s: Store, op: Op, ops: seq<Op>)
    requires op.Revoking? && op.id in s.devices && !HasStatus(s, op.id, TrustStatus.Revoked)
    ensures var t := After(Apply(s, op), ops);
            && HasStatus(t, op.id, TrustStatus.Revoked)
            && t.devices[op.id].revocation == Some(Revocation(op.revokedBy, op.now, op.reason))
            && forall id, key :: SameChain(t, id, op.id) ==>
                 Verdict(t, id, key) in {TrustDecision.Revoked, TrustDecision.KeyChanged}
  {
    var u := Apply(s, op);
    RevokedAtOnce(s, op);
    RunExtends(u, ops);
    forall id, key | SameChain(After(u, ops), id, op.id)
      ensures Verdict(After(u, ops), id, key) in {TrustDecision.Revoked, TrustDecision.KeyChanged}
    {
      TaintIsPermanent(u, ops, op.id, id, key);
    }
  }

  /** Exactly which calls are refused, and why; every other is carried out. */
  lemma RefusalsExactly(s: Store, op: Op)
    ensures var known := op.Rotation? || op.id in s.devices;
            match op
            case FirstSeen(id, key, name, now) =>
              var r := RecordFirstSeen(s, id, key, name, now);
              r.Err? == known && (r.Err? ==> r.error == AlreadyKnown)
            case Touch(_, _) => !known ==> Apply(s, op) == s
            case Approval(id) =>
              var r := Approve(s, id);
              && r.Err? == (!known || s.devices[id].status.Revoked?)
              && (r.Err? ==> r.error == if known then IsRevoked else UnknownDevice)
            case Revoking(id, revokedBy, reason, now) =>
              var r := RevokeDevice(s, id, revokedBy, reason, now);
              && r.Err? == (!known || s.devices[id].status.Revoked?)
              && (r.Err? ==> r.error == if known then IsRevoked else UnknownDevice)
            case Rotation(cert, verified, now) =>
              var r := RecordRotation(s, cert, verified, now);
              && r.Err? == (!verified || HasStatus(s, cert.oldId, TrustStatus.Revoked))
              && (r.Err? ==> r.error == if verified then IsRevoked else InvalidCertificate)
  {}

  // ---- Events ------------------------------------------------------------------------------------

  /** Something an operation brings about in the store it finds. */
  type Event = (Store, Op) -> bool

  function StoreAfter(ops: seq<Op>): Store { After(EmptyStore, ops) }

  /** Operation i of a run is such an event. */
  ghost predicate At(ev: Event, ops: seq<Op>, i: nat) { i < |ops| && ev(StoreAfter(ops[..i]), ops[i]) }

  ghost predicate Happened(ev: Event, ops: seq<Op>) { exists i: nat :: At(ev, ops, i) }

  ghost predicate LastAt(ev: Event, ops: seq<Op>, i: nat) {
    At(ev, ops, i) && forall j: nat :: i < j ==> !At(ev, ops, j)
  }

  /** A first sighting of id. */
  predicate Sights(s: Store, op: Op, id: DeviceId) { op.FirstSeen? && op.id == id && id !in s.devices }

  /** A verified certificate that hands over to id from a trusted device. */
  predicate HandsOver(s: Store, op: Op, id: DeviceId) {
    op.Rotation? && op.verified && op.cert.newId == id && HasStatus(s, op.cert.oldId, TrustStatus.Trusted)
  }

  predicate Enters(s: Store, op: Op, id: DeviceId) {
    id !in s.devices && (Sights(s, op, id) || HandsOver(s, op, id))
  }

  function Admits(id: DeviceId): Event { (s: Store, op: Op) => Enters(s, op, id) }

  function Revokes(id: DeviceId): Event {
    (s: Store, op: Op) =>
      op.Revoking? && op.id == id && id in s.devices && !HasStatus(s, id, TrustStatus.Revoked)
  }

  function Trusts(id: DeviceId): Event {
    (s: Store, op: Op) =>
      !HasStatus(s, id, TrustStatus.Revoked)
      && ((op.Approval? && op.id == id && id in s.devices) || HandsOver(s, op, id))
  }

  /** A verified certificate from a device that is not revoked. */
  function Records(e: (DeviceId, DeviceId)): Event {
    (s: Store, op: Op) =>
      op.Rotation? && op.verified && (op.cert.oldId, op.cert.newId) == e && !HasStatus(s, e.0, TrustStatus.Revoked)
  }

  function Encounters(id: DeviceId): Event {
    (s: Store, op: Op) =>
      || Enters(s, op, id)
      || (op.Touch? && op.id == id && id in s.devices)
      || (HandsOver(s, op, id) && HasStatus(s, id, TrustStatus.Pending))
  }

  lemma AtPrefix(ev: Event, ops: seq<Op>, n: nat, i: nat)
    requires i < n <= |ops|
    ensures At(ev, ops[..n], i) <==> At(ev, ops, i)
  {
    assert ops[..n][..i] == ops[..i];
  }

  lemma HappenedStep(ev: Event, ops: seq<Op>)
    requires ops != []
    ensures var before := ops[..|ops| - 1];
            Happened(ev, ops) <==> Happened(ev, before) || ev(StoreAfter(before), ops[|ops| - 1])
  {
    var n := |ops| - 1;
    forall i: nat | i < n ensures At(ev, ops[..n], i) <==> At(ev, ops, i) { AtPrefix(ev, ops, n, i); }
    if Happened(ev, ops[..n]) {
      var i: nat :| At(ev, ops[..n], i);
      assert At(ev, ops, i);
    }
    if ev(StoreAfter(ops[..n]), ops[n]) { assert At(ev, ops, n); }
    if Happened(ev, ops) {
      var i: nat :| At(ev, ops, i);
      assert i < n ==> At(ev, ops[..n], i);
    }
  }

  // ---- What each operation brings about -----------------------------------------------------------

  lemma RowsStep(s: Store, op: Op, id: DeviceId)
    ensures id in Apply(s, op).devices <==> id in s.devices || Admits(id)(s, op)
    ensures HasStatus(Apply(s, op), id, TrustStatus.Revoked)
       <==> HasStatus(s, id, TrustStatus.Revoked) || Revokes(id)(s, op)
    ensures HasStatus(Apply(s, op), id, TrustStatus.Trusted)
       <==> (HasStatus(s, id, TrustStatus.Trusted) || Trusts(id)(s, op)) && !Revokes(id)(s, op)
  {}

  /** What a certificate says, and when it was recorded. */
  function RowOf(op: Op): Transition
    requires op.Rotation?
  {
    Transition(op.cert.oldKey, op.cert.newKey, op.cert.timestamp, op.cert.signature, op.now)
  }

  lemma TransitionsStep(s: Store, op: Op, e: (DeviceId, DeviceId))
    ensures e in Apply(s, op).transitions <==> e in s.transitions || Records(e)(s, op)
    ensures Records(e)(s, op) ==> Apply(s, op).transitions[e] == RowOf(op)
    ensures e in s.transitions && !Records(e)(s, op) ==> Apply(s, op).transitions[e] == s.transitions[e]
  {}

  lemma LastSeenStep(s: Store, op: Op, id: DeviceId)
    requires id in Apply(s, op).devices
    ensures Encounters(id)(s, op) ==> !op.Approval? && Apply(s, op).devices[id].lastSeen == op.now
    ensures !Encounters(id)(s, op) ==> id in s.devices && Apply(s, op).devices[id].lastSeen == s.devices[id].lastSeen
  {}

  lemma AdmissionStep(s: Store, op: Op, id: DeviceId)
    requires Admits(id)(s, op)
    ensures var t := Apply(s, op);
            && id in t.devices && t.devices[id].firstSeen == op.now && t.devices[id].revocation.None?
            && (if Sights(s, op, id) then t.devices[id].publicKey == op.key && t.devices[id].name == op.name
                else t.devices[id].publicKey == op.cert.newKey
                     && t.devices[id].name == s.devices[op.cert.oldId].name)
  {}

  // ---- The tables, read off the history -------------------------------------------------------------

  /** In every run a device has a row, is revoked or is trusted, and a transition
    * has a row, exactly by what happened before. */
  lemma {:induction false} RowsExactly(ops: seq<Op>, id: DeviceId, e: (DeviceId, DeviceId))
    ensures var s := StoreAfter(ops);
            && (id in s.devices <==> Happened(Admits(id), ops))
            && (HasStatus(s, id, TrustStatus.Revoked) <==> Happened(Revokes(id), ops))
            && (HasStatus(s, id, TrustStatus.Trusted) <==> Happened(Trusts(id), ops) && !Happened(Revokes(id), ops))
            && (e in s.transitions <==> Happened(Records(e), ops))
  {
    if ops != [] {
      var before, op := ops[..|ops| - 1], ops[|ops| - 1];
      RowsExactly(before, id, e);
      HappenedStep(Admits(id), ops);
      HappenedStep(Revokes(id), ops);
      HappenedStep(Trusts(id), ops);
      HappenedStep(Records(e), ops);
      RowsStep(StoreAfter(before), op, id);
      TransitionsStep(StoreAfter(before), op, e);
    }
  }

  lemma StoreAtNext(ops: seq<Op>, i: nat)
    requires i < |ops|
    ensures StoreAfter(ops[..i + 1]) == Apply(StoreAfter(ops[..i]), ops[i])
    ensures StoreAfter(ops) == After(StoreAfter(ops[..i + 1]), ops[i + 1..])
  {
    assert ops[..i + 1][..i] == ops[..i] && ops == ops[..i + 1] + ops[i + 1..];
    RunSplits(EmptyStore, ops[..i + 1], ops[i + 1..]);
  }

  lemma {:induction false} LastExists(ev: Event, ops: seq<Op>) returns (i: nat)
    requires Happened(ev, ops)
    ensures LastAt(ev, ops, i)
  {
    var n := |ops| - 1;
    assert ops != [];
    if ev(StoreAfter(ops[..n]), ops[n]) {
      i := n;
    } else {
      HappenedStep(ev, ops);
      i := LastExists(ev, ops[..n]);
      forall j: nat | j < n ensures At(ev, ops[..n], j) <==> At(ev, ops, j) { AtPrefix(ev, ops, n, j); }
    }
  }

  /** The operation that admitted a device fixes its key, its name and when it was
    * first seen: those of its first sighting, or those of a verified certificate
    * from a trusted device and that device's name. */
  lemma AdmissionIsFinal(ops: seq<Op>, id: DeviceId, i: nat)
    requires At(Admits(id), ops, i)
    ensures var s, before, op := StoreAfter(ops), StoreAfter(ops[..i]), ops[i];
            && id in s.devices && s.devices[id].firstSeen == op.now
            && (if op.FirstSeen? then op.id == id && s.devices[id].publicKey == op.key && s.devices[id].name == op.name
                else op.Rotation? && op.verified && op.cert.newId == id && s.devices[id].publicKey == op.cert.newKey
                     && HasStatus(before, op.cert.oldId, TrustStatus.Trusted)
                     && s.devices[id].name == before.devices[op.cert.oldId].name)
  {
    StoreAtNext(ops, i);
    AdmissionStep(StoreAfter(ops[..i]), ops[i], id);
    RunExtends(StoreAfter(ops[..i + 1]), ops[i + 1..]);
  }

  /** The operation that revoked a device fixes its revocation record. */
  lemma RevocationIsFinal(ops: seq<Op>, id: DeviceId, i: nat)
    requires At(Revokes(id), ops, i)
    ensures id in StoreAfter(ops).devices
    ensures StoreAfter(ops).devices[id].revocation == Some(Revocation(ops[i].revokedBy, ops[i].now, ops[i].reason))
  {
    StoreAtNext(ops, i);
    RevocationTakesEffect(StoreAfter(ops[..i]), ops[i], ops[i + 1..]);
  }

  lemma LastAtPrefix(ev: Event, ops: seq<Op>, i: nat)
    requires LastAt(ev, ops, i) && i < |ops| - 1
    ensures LastAt(ev, ops[..|ops| - 1], i) && !ev(StoreAfter(ops[..|ops| - 1]), ops[|ops| - 1])
  {
    var n := |ops| - 1;
    forall j: nat | j < n ensures At(ev, ops[..n], j) <==> At(ev, ops, j) { AtPrefix(ev, ops, n, j); }
    assert !At(ev, ops, n);
  }

  /** A transition row holds exactly what the last verified certificate said. */
  lemma {:induction false} TransitionRow(ops: seq<Op>, e: (DeviceId, DeviceId), i: nat)
    requires LastAt(Records(e), ops, i)
    ensures e in StoreAfter(ops).transitions && StoreAfter(ops).transitions[e] == RowOf(ops[i])
  {
    var n := |ops| - 1;
    TransitionsStep(StoreAfter(ops[..n]), ops[n], e);
    if i < n {
      LastAtPrefix(Records(e), ops, i);
      TransitionRow(ops[..n], e, i);
    }
  }

  /** A device was last seen when it was last encountered: sighted, touched, or
    * handed over to while pending or unknown. */
  lemma {:induction false} LastSeenExactly(ops: seq<Op>, id: DeviceId, i: nat)
    requires LastAt(Encounters(id), ops, i)
    ensures id in StoreAfter(ops).devices && !ops[i].Approval? && StoreAfter(ops).devices[id].lastSeen == ops[i].now
  {
    var n := |ops| - 1;
    if i < n {
      LastAtPrefix(Encounters(id), ops, i);
      LastSeenExactly(ops[..n], id, i);
    }
    RowsStep(StoreAfter(ops[..n]), ops[n], id);
    LastSeenStep(StoreAfter(ops[..n]), ops[n], id);
  }

  /** Every transition row was put there by a verified certificate from a device
    * that was not revoked then, and holds its keys, time stamp and signature. */
  lemma TransitionWasVerified(ops: seq<Op>, e: (DeviceId, DeviceId)) returns (i: nat)
    requires e in StoreAfter(ops).transitions
    ensures i < |ops| && ops[i].Rotation? && ops[i].verified && (ops[i].cert.oldId, ops[i].cert.newId) == e
    ensures !HasStatus(StoreAfter(ops[..i]), e.0, TrustStatus.Revoked)
    ensures StoreAfter(ops).transitions[e] == RowOf(ops[i])
  {
    RowsExactly(ops, [], e);
    i := LastExists(Records(e), ops);
    TransitionRow(ops, e, i);
  }

  /** Every stored key is that of the device's first sighting, or the new key of a
    * verified certificate for it from a device that was trusted then. */
  lemma KeyHasProvenance(ops: seq<Op>, id: DeviceId) returns (i: nat)
    requires id in StoreAfter(ops).devices
    ensures i < |ops| && id !in StoreAfter(ops[..i]).devices
    ensures var key, op := StoreAfter(ops).devices[id].publicKey, ops[i];
            || (op.FirstSeen? && op.id == id && key == op.key)
            || (op.Rotation? && op.verified && op.cert.newId == id && key == op.cert.newKey
                && HasStatus(StoreAfter(ops[..i]), op.cert.oldId, TrustStatus.Trusted))
  {
    RowsExactly(ops, id, ([], []));
    i :| At(Admits(id), ops, i);
    AdmissionIsFinal(ops, id, i);
  }
}
