/** check_with_rotation of core/trust/store.py against its documentation, which
  * speaks of a rotation chain from a trusted predecessor. */
module DocumentedTrust {
  import opened Graph
  import opened TrustModel
  import opened TrustRuns

  /** The device is trusted, or rotations lead to it from one that is. */
  ghost predicate TrustedUpstream(s: Store, id: DeviceId) {
    exists d :: HasStatus(s, d, TrustStatus.Trusted) && Reaches(s.transitions.Keys, d, id)
  }

  ghost function DocumentedVerdict(s: Store, id: DeviceId, key: Key): TrustDecision {
    if id in s.devices && s.devices[id].publicKey != key then TrustDecision.KeyChanged
    else if ChainHas(s, id, TrustStatus.Revoked) then TrustDecision.Revoked
    else if TrustedUpstream(s, id) then TrustDecision.Trusted
    else if id in s.devices then TrustDecision.Pending
    else TrustDecision.Unknown
  }

  lemma UpstreamIsInChain(s: Store, id: DeviceId)
    requires TrustedUpstream(s, id)
    ensures ChainHas(s, id, TrustStatus.Trusted)
  {
    var d :| HasStatus(s, d, TrustStatus.Trusted) && Reaches(s.transitions.Keys, d, id);
    DirectedIsUndirected(s.transitions.Keys, d, id);
  }

  /** For every store, exactly when the code gives the documented answer: unless
    * the key matches, nothing in the component is revoked, and the component's
    * trusted devices are all off the paths that lead to this one. The code then
    * answers trusted where the documentation would not. */
  lemma AgreesExactly(s: Store, id: DeviceId, key: Key)
    ensures Verdict(s, id, key) == DocumentedVerdict(s, id, key)
       <==> || (id in s.devices && s.devices[id].publicKey != key)
            || ChainHas(s, id, TrustStatus.Revoked)
            || TrustedUpstream(s, id)
            || !ChainHas(s, id, TrustStatus.Trusted)
    ensures Verdict(s, id, key) != DocumentedVerdict(s, id, key) ==> Verdict(s, id, key) == TrustDecision.Trusted
  {
    if TrustedUpstream(s, id) { UpstreamIsInChain(s, id); }
  }

  // ---- Runs in which the two agree ------------------------------------------------------------------------

  /** Operation i of a run records a transition. */
  ghost predicate Records(ops: seq<Op>, i: nat, e: (DeviceId, DeviceId)) {
    && i < |ops| && ops[i].Rotation? && (ops[i].cert.oldId, ops[i].cert.newId) == e
    && RecordRotation(After(EmptyStore, ops[..i]), ops[i].cert, ops[i].verified, ops[i].now).Ok?
  }

  lemma {:induction false} TransitionWasRecorded(ops: seq<Op>, e: (DeviceId, DeviceId)) returns (i: nat)
    requires e in After(EmptyStore, ops).transitions
    ensures Records(ops, i, e)
  {
    var before, op := ops[..|ops| - 1], ops[|ops| - 1];
    if e in After(EmptyStore, before).transitions {
      i := TransitionWasRecorded(before, e);
      assert ops[..i] == before[..i];
    } else {
      i := |ops| - 1;
    }
  }

  /** Every rotation within the component of id was recorded while its old
    * device was trusted. */
  ghost predicate RotatedFromTrusted(ops: seq<Op>, id: DeviceId) {
    forall i: nat, e :: Records(ops, i, e) && SameChain(After(EmptyStore, ops), id, e.0) ==>
      HasStatus(After(EmptyStore, ops[..i]), e.0, TrustStatus.Trusted)
  }

  ghost predicate TrustedOrRevoked(s: Store, id: DeviceId) { id in s.devices && !s.devices[id].status.Pending? }

  lemma RecordedFromTrusted(ops: seq<Op>, i: nat, e: (DeviceId, DeviceId))
    requires Records(ops, i, e) && HasStatus(After(EmptyStore, ops[..i]), e.0, TrustStatus.Trusted)
    ensures TrustedOrRevoked(After(EmptyStore, ops), e.0) && TrustedOrRevoked(After(EmptyStore, ops), e.1)
  {
    var s := After(EmptyStore, ops[..i + 1]);
    assert ops[..i + 1][..i] == ops[..i];
    assert TrustedOrRevoked(s, e.0) && TrustedOrRevoked(s, e.1);
    assert ops == ops[..i + 1] + ops[i + 1..];
    RunSplits(EmptyStore, ops[..i + 1], ops[i + 1..]);
    RunExtends(s, ops[i + 1..]);
  }

  /** A device that shares its component with another one is an end of one of
    * the component's transitions. */
  lemma HasTransition(s: Store, id: DeviceId, d: DeviceId) returns (e: (DeviceId, DeviceId))
    requires SameChain(s, id, d) && id != d
    ensures e in s.transitions && id in {e.0, e.1} && SameChain(s, id, e.0)
  {
    var edges := Undirected(s.transitions.Keys);
    var path :| IsPath(edges, path) && path[0] == id && path[|path| - 1] == d;
    assert (path[0], path[1]) in edges;
    ReachesSelf(edges, id);
    if (id, path[1]) in s.transitions {
      e := (id, path[1]);
    } else {
      e := (path[1], id);
      ReachesStep(edges, id, id, path[1]);
    }
  }

  /** Then a component with a trusted device and no revoked one is trusted
    * throughout. */
  lemma TrustedThroughout(ops: seq<Op>, id: DeviceId)
    requires RotatedFromTrusted(ops, id)
    requires ChainHas(After(EmptyStore, ops), id, TrustStatus.Trusted)
    requires !ChainHas(After(EmptyStore, ops), id, TrustStatus.Revoked)
    ensures HasStatus(After(EmptyStore, ops), id, TrustStatus.Trusted)
  {
    var s := After(EmptyStore, ops);
    var d :| SameChain(s, id, d) && HasStatus(s, d, TrustStatus.Trusted);
    if d != id {
      var e := HasTransition(s, id, d);
      var i := TransitionWasRecorded(ops, e);
      RecordedFromTrusted(ops, i, e);
      ReachesSelf(Undirected(s.transitions.Keys), id);
      assert SameChain(s, id, id) && !HasStatus(s, id, TrustStatus.Revoked);
    }
  }

  /** In every run in which the rotations of the component were recorded from
    * trusted devices, the code gives the documented answer. */
  lemma AgreesAfterTrustedRotations(ops: seq<Op>, id: DeviceId, key: Key)
    requires RotatedFromTrusted(ops, id)
    ensures Verdict(After(EmptyStore, ops), id, key) == DocumentedVerdict(After(EmptyStore, ops), id, key)
  {
    var s := After(EmptyStore, ops);
    if ChainHas(s, id, TrustStatus.Trusted) && !ChainHas(s, id, TrustStatus.Revoked) {
      TrustedThroughout(ops, id);
      ReachesSelf(s.transitions.Keys, id);
      assert TrustedUpstream(s, id);
    }
    AgreesExactly(s, id, key);
  }

  // ---- A run in which they differ ----------------------------------------------------------------------------

  /** A rotates to B while pending, and B is approved later: the code reports A
    * trusted, although no trusted device leads to A. */
  lemma TrustFlowsBackward() returns (ops: seq<Op>, id: DeviceId, key: Key)
    ensures Verdict(After(EmptyStore, ops), id, key) == TrustDecision.Trusted
    ensures DocumentedVerdict(After(EmptyStore, ops), id, key) == TrustDecision.Pending
  {
    var a: DeviceId, b: DeviceId := [1], [2];
    id, key := a, [3];
    var o1, o2 := FirstSeen(a, [3], [], 0.0), Rotation(Certificate(a, [3], b, [4], 1.0, []), true, 1.0);
    var o3, o4 := FirstSeen(b, [4], [], 2.0), Approval(b);
    ops := [o1, o2, o3, o4];
    var s := Apply(Apply(Apply(Apply(EmptyStore, o1), o2), o3), o4);
    assert ops[..3] == [o1, o2, o3] && [o1, o2, o3][..2] == [o1, o2] && [o1, o2][..1] == [o1] && [o1][..0] == [];
    assert After(EmptyStore, [o1]) == Apply(EmptyStore, o1);
    assert After(EmptyStore, [o1, o2]) == Apply(Apply(EmptyStore, o1), o2);
    assert After(EmptyStore, [o1, o2, o3]) == Apply(Apply(Apply(EmptyStore, o1), o2), o3);
    assert After(EmptyStore, ops) == s;
    BackwardStore(s, a, b);
  }

  lemma BackwardStore(s: Store, a: DeviceId, b: DeviceId)
    requires a != b && s.transitions.Keys == {(a, b)} && s.devices.Keys == {a, b}
    requires s.devices[a].status == TrustStatus.Pending && s.devices[b].status == TrustStatus.Trusted
    ensures var key := s.devices[a].publicKey;
            Verdict(s, a, key) == TrustDecision.Trusted && DocumentedVerdict(s, a, key) == TrustDecision.Pending
  {
    var edges := s.transitions.Keys;
    assert (a, b) in Undirected(edges);
    assert IsPath(Undirected(edges), [a, b]);
    assert SameChain(s, a, b);
    if Reaches(edges, b, a) {
      assert forall e :: e in edges && e.0 in {b} ==> e.1 in {b};
      ClosedContainsReachable(edges, {b}, b, a);
    }
    assert forall d :: d in s.devices ==> d in s.devices.Keys;
  }
}
