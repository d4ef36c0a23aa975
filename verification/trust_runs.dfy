/** What holds of the trust store over every sequence of operations. */
module TrustRuns {
  import opened Wrappers
  import opened TextCodes
  import opened Graph
  import opened TrustModel

  datatype Op =
    | FirstSeen(id: DeviceId, key: Key, name: Text, now: real)
    | Touch(id: DeviceId, now: real)
    | Approval(id: DeviceId)
    | Revoking(id: DeviceId, revokedBy: Text, reason: Option<Text>, now: real)
    | Rotation(cert: Certificate, verified: bool, now: real)

  /** A refused operation raises and leaves the tables as they were. */
  function OrElse(r: Result<Store, TrustError>, s: Store): Store {
    if r.Ok? then r.value else s
  }

  function Apply(s: Store, op: Op): Store {
    match op
    case FirstSeen(id, key, name, now) => OrElse(RecordFirstSeen(s, id, key, name, now), s)
    case Touch(id, now) => TouchLastSeen(s, id, now)
    case Approval(id) => OrElse(Approve(s, id), s)
    case Revoking(id, revokedBy, reason, now) => OrElse(RevokeDevice(s, id, revokedBy, reason, now), s)
    case Rotation(cert, verified, now) => OrElse(RecordRotation(s, cert, verified, now), s)
  }

  function After(s: Store, ops: seq<Op>): Store {
    if ops == [] then s else Apply(After(s, ops[..|ops| - 1]), ops[|ops| - 1])
  }

  // ---- What no operation undoes --------------------------------------------------

  function Rank(status: TrustStatus): nat {
    match status case Pending => 0 case Trusted => 1 case Revoked => 2
  }

  /** Rows are never dropped or rekeyed, status only climbs, a revocation
    * record is never rewritten and transitions are never forgotten. */
  ghost predicate Extends(s: Store, t: Store) {
    && s.transitions.Keys <= t.transitions.Keys
    && forall id :: id in s.devices ==>
        && id in t.devices
        && t.devices[id].publicKey == s.devices[id].publicKey
        && t.devices[id].name == s.devices[id].name
        && t.devices[id].firstSeen == s.devices[id].firstSeen
        && Rank(s.devices[id].status) <= Rank(t.devices[id].status)
        && (s.devices[id].status.Revoked? ==> t.devices[id].revocation == s.devices[id].revocation)
  }

  lemma StepExtends(s: Store, op: Op)
    ensures Extends(s, Apply(s, op))
  {}

  lemma ExtendsTransitive(s: Store, t: Store, u: Store)
    requires Extends(s, t) && Extends(t, u)
    ensures Extends(s, u)
  {}

  lemma {:induction false} RunExtends(s: Store, ops: seq<Op>)
    ensures Extends(s, After(s, ops))
  {
    if ops != [] {
      var t := After(s, ops[..|ops| - 1]);
      RunExtends(s, ops[..|ops| - 1]);
      StepExtends(t, ops[|ops| - 1]);
      ExtendsTransitive(s, t, After(s, ops));
    }
  }

  lemma {:induction false} RunSplits(s: Store, before: seq<Op>, after: seq<Op>)
    ensures After(s, before + after) == After(After(s, before), after)
  {
    if after == [] {
      assert before + after == before;
    } else {
      var front := after[..|after| - 1];
      assert (before + after)[..|before + after| - 1] == before + front;
      RunSplits(s, before, front);
    }
  }

  // ---- Revocation taint ------------------------------------------------------------

  lemma ChainGrows(s: Store, t: Store, a: DeviceId, b: DeviceId)
    requires Extends(s, t) && SameChain(s, a, b)
    ensures SameChain(t, a, b)
  {}

  /** Once a device is revoked, every device that is in its component at any
    * later time, including through components merged later, is refused. */
  lemma TaintIsPermanent(s: Store, ops: seq<Op>, revoked: DeviceId, id: DeviceId, key: Key)
    requires HasStatus(s, revoked, TrustStatus.Revoked)
    requires SameChain(After(s, ops), id, revoked)
    ensures Verdict(After(s, ops), id, key) in {TrustDecision.Revoked, TrustDecision.KeyChanged}
  {
    RunExtends(s, ops);
  }

  /** The same from the verdict's side: a refusal is never lifted, and a
    * refused device with a row keeps exactly the refusal it had. */
  lemma RefusalIsPermanent(s: Store, ops: seq<Op>, id: DeviceId, key: Key)
    requires Verdict(s, id, key) in {TrustDecision.Revoked, TrustDecision.KeyChanged}
    ensures Verdict(After(s, ops), id, key) in {TrustDecision.Revoked, TrustDecision.KeyChanged}
    ensures id in s.devices ==> Verdict(After(s, ops), id, key) == Verdict(s, id, key)
  {
    RunExtends(s, ops);
    if ChainHas(s, id, TrustStatus.Revoked) {
      var d :| SameChain(s, id, d) && HasStatus(s, d, TrustStatus.Revoked);
      ChainGrows(s, After(s, ops), id, d);
      TaintIsPermanent(s, ops, d, id, key);
    }
  }

  /** Members of one component get one answer up to their own rows. */
  lemma ChainSharesFate(s: Store, a: DeviceId, b: DeviceId, status: TrustStatus)
    requires SameChain(s, a, b)
    ensures ChainHas(s, a, status) <==> ChainHas(s, b, status)
  {
    var edges := Undirected(s.transitions.Keys);
    ReachesSymmetric(s.transitions.Keys, a, b);
    if ChainHas(s, a, status) {
      var d :| SameChain(s, a, d) && HasStatus(s, d, status);
      ReachesTransitive(edges, b, a, d);
    }
    if ChainHas(s, b, status) {
      var d :| SameChain(s, b, d) && HasStatus(s, d, status);
      ReachesTransitive(edges, a, b, d);
    }
  }

  // ---- Provenance of trust -----------------------------------------------------------

  /** The devices the user explicitly approved during a run. */
  function Approvals(ops: seq<Op>): set<DeviceId> {
    if ops == [] then {} else
      var last, before := ops[|ops| - 1], ops[..|ops| - 1];
      Approvals(before) + (if last.Approval? && Approve(After(EmptyStore, before), last.id).Ok? then {last.id} else {})
  }

  /** d was approved, or lies downstream of recorded transitions from an
    * approved device. */
  ghost predicate Vouched(s: Store, approved: set<DeviceId>, d: DeviceId) {
    exists a :: a in approved && Reaches(s.transitions.Keys, a, d)
  }

  lemma {:induction false} TrustHasProvenance(ops: seq<Op>)
    ensures forall d :: HasStatus(After(EmptyStore, ops), d, TrustStatus.Trusted)
                        ==> Vouched(After(EmptyStore, ops), Approvals(ops), d)
  {
    if ops != [] {
      var before, op := ops[..|ops| - 1], ops[|ops| - 1];
      var s, t := After(EmptyStore, before), After(EmptyStore, ops);
      TrustHasProvenance(before);
      forall d | HasStatus(t, d, TrustStatus.Trusted) ensures Vouched(t, Approvals(ops), d) {
        if HasStatus(s, d, TrustStatus.Trusted) {
          VouchedStep(s, t, Approvals(before), Approvals(ops), d);
        } else if op.Approval? {
          ReachesSelf(t.transitions.Keys, d);
        } else {
          var a := op.cert.oldId;
          assert (a, d) in t.transitions;
          VouchedStep(s, t, Approvals(before), Approvals(ops), a);
          var root :| root in Approvals(ops) && Reaches(t.transitions.Keys, root, a);
          ReachesStep(t.transitions.Keys, root, a, d);
        }
      }
    }
  }

  lemma VouchedStep(s: Store, t: Store, before: set<DeviceId>, after: set<DeviceId>, d: DeviceId)
    requires Vouched(s, before, d) && before <= after && s.transitions.Keys <= t.transitions.Keys
    ensures Vouched(t, after, d)
  {}

  lemma DirectedIsUndirected(edges: Edges, a: Node, b: Node)
    requires Reaches(edges, a, b)
    ensures Reaches(Undirected(edges), b, a)
  {
    ReachesMore(edges, Undirected(edges), a, b);
    ReachesSymmetric(edges, a, b);
  }

  /** No device is ever reported trusted unless the user approved some member
    * of its rotation component. */
  lemma TrustedVerdictWasApproved(ops: seq<Op>, id: DeviceId, key: Key)
    requires Verdict(After(EmptyStore, ops), id, key) == TrustDecision.Trusted
    ensures exists a :: a in Approvals(ops) && SameChain(After(EmptyStore, ops), id, a)
  {
    var s := After(EmptyStore, ops);
    var d :| SameChain(s, id, d) && HasStatus(s, d, TrustStatus.Trusted);
    TrustHasProvenance(ops);
    var a :| a in Approvals(ops) && Reaches(s.transitions.Keys, a, d);
    DirectedIsUndirected(s.transitions.Keys, a, d);
    ReachesTransitive(Undirected(s.transitions.Keys), id, d, a);
  }

  /** Trust that was granted is still granted later, as long as the key matches
    * and nothing in the component is revoked. */
  lemma TrustPersists(s: Store, ops: seq<Op>, id: DeviceId, key: Key)
    requires Verdict(s, id, key) == TrustDecision.Trusted
    requires id in After(s, ops).devices ==> After(s, ops).devices[id].publicKey == key
    requires !ChainHas(After(s, ops), id, TrustStatus.Revoked)
    ensures Verdict(After(s, ops), id, key) == TrustDecision.Trusted
  {
    var t := After(s, ops);
    RunExtends(s, ops);
    var d :| SameChain(s, id, d) && HasStatus(s, d, TrustStatus.Trusted);
    ChainGrows(s, t, id, d);
  }

  /** Exactly when a trusted verdict pins down one key: when the device has
    * its own row. A device known only from a transition row is reported
    * trusted under every key. */
  lemma VerdictBindsKey(s: Store, id: DeviceId)
    requires ChainHas(s, id, TrustStatus.Trusted) && !ChainHas(s, id, TrustStatus.Revoked)
    ensures (forall j, k ::
               Verdict(s, id, j) == TrustDecision.Trusted && Verdict(s, id, k) == TrustDecision.Trusted ==> j == k)
       <==> id in s.devices
  {
    if id !in s.devices {
      assert Verdict(s, id, []) == TrustDecision.Trusted;
      assert Verdict(s, id, [107]) == TrustDecision.Trusted;
    }
  }

  /** Such a device exists after a short run: its predecessor rotated while
    * still pending and was approved afterwards. */
  lemma RowlessTrustIsReachable(key: Key) returns (ops: seq<Op>, id: DeviceId)
    ensures id !in After(EmptyStore, ops).devices
    ensures Verdict(After(EmptyStore, ops), id, key) == TrustDecision.Trusted
  {
    var before: DeviceId, after: DeviceId := [1], [2];
    var cert := Certificate(before, [3], after, [4], 1.0, []);
    var o1 := FirstSeen(before, [3], [], 0.0);
    var o2 := Rotation(cert, true, 1.0);
    ops, id := [o1, o2, Approval(before)], after;
    assert ops[..2] == [o1, o2] && [o1, o2][..1] == [o1] && [o1][..0] == [];
    var s := After(EmptyStore, ops);
    assert After(EmptyStore, [o1]) == Apply(EmptyStore, o1);
    assert After(EmptyStore, [o1, o2]) == Apply(Apply(EmptyStore, o1), o2);
    assert s == Apply(Apply(Apply(EmptyStore, o1), o2), Approval(before));
    assert s.devices.Keys == {before} && HasStatus(s, before, TrustStatus.Trusted);
    assert s.transitions.Keys == {(before, after)};
    assert (after, before) in Undirected(s.transitions.Keys) by {
      assert (before, after) in s.transitions.Keys;
    }
    assert IsPath(Undirected(s.transitions.Keys), [after, before]);
    assert SameChain(s, after, before);
    assert forall d :: d in s.devices ==> d == before;
  }
}
