/** The trust store of core/trust/store.py and core/trust/revocation.py as
  * values: two tables and what each operation does to them. */
module TrustModel {
  import opened Wrappers
  import opened TextCodes
  import opened Graph

  type DeviceId = Text
  type Key = Text

  datatype TrustStatus = Pending | Trusted | Revoked
  datatype TrustDecision = Unknown | Pending | Trusted | KeyChanged | Revoked

  datatype Revocation = Revocation(revokedBy: Text, revokedAt: real, reason: Option<Text>)

  datatype Device = Device(publicKey: Key, name: Text, firstSeen: real, lastSeen: real,
                           status: TrustStatus, revocation: Option<Revocation>)

  datatype Certificate = Certificate(oldId: DeviceId, oldKey: Key, newId: DeviceId, newKey: Key,
                                     timestamp: real, signature: Text)

  /** One row of identity_transitions; (old id, new id) is its key. */
  datatype Transition = Transition(oldKey: Key, newKey: Key, timestamp: real,
                                   signature: Text, recordedAt: real)

  datatype Store = Store(devices: map<DeviceId, Device>,
                         transitions: map<(DeviceId, DeviceId), Transition>)

  const EmptyStore := Store(map[], map[])

  datatype TrustError = AlreadyKnown | UnknownDevice | IsRevoked | InvalidCertificate

  // ---- Operations ------------------------------------------------------------

  function Check(s: Store, id: DeviceId, key: Key): TrustDecision {
    if id !in s.devices then TrustDecision.Unknown
    else if s.devices[id].publicKey != key then TrustDecision.KeyChanged
    else match s.devices[id].status
      case Revoked => TrustDecision.Revoked
      case Trusted => TrustDecision.Trusted
      case Pending => TrustDecision.Pending
  }

  function RecordFirstSeen(s: Store, id: DeviceId, key: Key, name: Text, now: real): Result<Store, TrustError> {
    if id in s.devices then Err(AlreadyKnown)
    else Ok(s.(devices := s.devices[id := Device(key, name, now, now, TrustStatus.Pending, None)]))
  }

  function TouchLastSeen(s: Store, id: DeviceId, now: real): Store {
    if id in s.devices then s.(devices := s.devices[id := s.devices[id].(lastSeen := now)]) else s
  }

  function Approve(s: Store, id: DeviceId): Result<Store, TrustError> {
    if id !in s.devices then Err(UnknownDevice)
    else if s.devices[id].status == TrustStatus.Revoked then Err(IsRevoked)
    else Ok(s.(devices := s.devices[id := s.devices[id].(status := TrustStatus.Trusted)]))
  }

  function RevokeDevice(s: Store, id: DeviceId, revokedBy: Text, reason: Option<Text>, now: real)
      : Result<Store, TrustError> {
    if id !in s.devices then Err(UnknownDevice)
    else if s.devices[id].status == TrustStatus.Revoked then Err(IsRevoked)
    else Ok(s.(devices := s.devices[id := s.devices[id].(
                 status := TrustStatus.Revoked, revocation := Some(Revocation(revokedBy, now, reason)))]))
  }

  /** verified is the verdict of verify_transition_certificate. */
  function RecordRotation(s: Store, cert: Certificate, verified: bool, now: real): Result<Store, TrustError> {
    if !verified then Err(InvalidCertificate)
    else if HasStatus(s, cert.oldId, TrustStatus.Revoked) then Err(IsRevoked)
    else
      var row := Transition(cert.oldKey, cert.newKey, cert.timestamp, cert.signature, now);
      var transitions := s.transitions[(cert.oldId, cert.newId) := row];
      var devices :=
        if !HasStatus(s, cert.oldId, TrustStatus.Trusted) then s.devices
        else if cert.newId !in s.devices then
          s.devices[cert.newId := Device(cert.newKey, s.devices[cert.oldId].name, now, now, TrustStatus.Trusted, None)]
        else if s.devices[cert.newId].status == TrustStatus.Pending then
          s.devices[cert.newId := s.devices[cert.newId].(status := TrustStatus.Trusted, lastSeen := now)]
        else s.devices;
      Ok(Store(devices, transitions))
  }

  predicate HasStatus(s: Store, id: DeviceId, status: TrustStatus) {
    id in s.devices && s.devices[id].status == status
  }

  // ---- The declarative reading of check_with_rotation --------------------------

  /** a and b lie in one component of the transition graph. */
  ghost predicate SameChain(s: Store, a: DeviceId, b: DeviceId) {
    Reaches(Undirected(s.transitions.Keys), a, b)
  }

  ghost predicate ChainHas(s: Store, id: DeviceId, status: TrustStatus) {
    exists d :: SameChain(s, id, d) && HasStatus(s, d, status)
  }

  ghost function Verdict(s: Store, id: DeviceId, key: Key): TrustDecision {
    if id in s.devices && s.devices[id].publicKey != key then TrustDecision.KeyChanged
    else if ChainHas(s, id, TrustStatus.Revoked) then TrustDecision.Revoked
    else if ChainHas(s, id, TrustStatus.Trusted) then TrustDecision.Trusted
    else if id in s.devices then TrustDecision.Pending
    else TrustDecision.Unknown
  }

  // ---- The order of a chain ----------------------------------------------------

  /** A time the store gives for when d entered the graph: the timestamp of
    * some transition into it, or zero when there is none. */
  ghost predicate IntroducedAt(s: Store, d: DeviceId, at: real) {
    || (at == 0.0 && forall e :: e in s.transitions ==> e.1 != d)
    || exists e :: e in s.transitions && e.1 == d && s.transitions[e].timestamp == at
  }

  ghost predicate SortedTimes(times: seq<real>) {
    forall i, j :: 0 <= i < j < |times| ==> times[i] <= times[j]
  }

  ghost predicate OrderedByIntroduction(s: Store, chain: seq<DeviceId>, times: seq<real>) {
    && |times| == |chain| && SortedTimes(times)
    && forall i :: 0 <= i < |chain| ==> IntroducedAt(s, chain[i], times[i])
  }

  ghost predicate Distinct(ids: seq<DeviceId>) {
    forall i, j :: 0 <= i < j < |ids| ==> ids[i] != ids[j]
  }
}

/** The mutable store: the methods work on the tables in place. */
module TrustStores {
  import opened Wrappers
  import opened TextCodes
  import opened Graph
  import opened TrustModel

  class TrustStore {
    var devices: map<DeviceId, Device>
    var transitions: map<(DeviceId, DeviceId), Transition>

    constructor ()
      ensures Contents() == EmptyStore
    {
      devices, transitions := map[], map[];
    }

    function Contents(): Store
      reads this
    {
      Store(devices, transitions)
    }

    method RecordFirstSeen(id: DeviceId, key: Key, name: Text, now: real) returns (r: Result<Device, TrustError>)
      modifies this
      ensures var spec := TrustModel.RecordFirstSeen(old(Contents()), id, key, name, now);
              if spec.Ok? then Contents() == spec.value && r == Ok(devices[id])
              else Contents() == old(Contents()) && r == Err(spec.error)
    {
      if id in devices {
        return Err(AlreadyKnown);
      }
      devices := devices[id := Device(key, name, now, now, TrustStatus.Pending, None)];
      return Ok(devices[id]);
    }

    method TouchLastSeen(id: DeviceId, now: real)
      modifies this
      ensures Contents() == TrustModel.TouchLastSeen(old(Contents()), id, now)
    {
      if id in devices {
        devices := devices[id := devices[id].(lastSeen := now)];
      }
    }

    method Approve(id: DeviceId) returns (r: Result<Device, TrustError>)
      modifies this
      ensures var spec := TrustModel.Approve(old(Contents()), id);
              if spec.Ok? then Contents() == spec.value && r == Ok(devices[id])
              else Contents() == old(Contents()) && r == Err(spec.error)
    {
      if id !in devices {
        return Err(UnknownDevice);
      }
      if devices[id].status == TrustStatus.Revoked {
        return Err(IsRevoked);
      }
      devices := devices[id := devices[id].(status := TrustStatus.Trusted)];
      return Ok(devices[id]);
    }

    method RevokeDevice(id: DeviceId, revokedBy: Text, reason: Option<Text>, now: real)
        returns (r: Result<Device, TrustError>)
      modifies this
      ensures var spec := TrustModel.RevokeDevice(old(Contents()), id, revokedBy, reason, now);
              if spec.Ok? then Contents() == spec.value && r == Ok(devices[id])
              else Contents() == old(Contents()) && r == Err(spec.error)
    {
      if id !in devices {
        return Err(UnknownDevice);
      }
      if devices[id].status == TrustStatus.Revoked {
        return Err(IsRevoked);
      }
      devices := devices[id := devices[id].(status := TrustStatus.Revoked,
                                            revocation := Some(Revocation(revokedBy, now, reason)))];
      return Ok(devices[id]);
    }

    method RecordRotation(cert: Certificate, verified: bool, now: real) returns (r: Result<(), TrustError>)
      modifies this
      ensures var spec := TrustModel.RecordRotation(old(Contents()), cert, verified, now);
              if spec.Ok? then Contents() == spec.value && r.Ok?
              else Contents() == old(Contents()) && r == Err(spec.error)
    {
      if !verified {
        return Err(InvalidCertificate);
      }
      var oldDevice := if cert.oldId in devices then Some(devices[cert.oldId]) else None;
      if oldDevice.Some? && oldDevice.value.status == TrustStatus.Revoked {
        return Err(IsRevoked);
      }
      transitions := transitions[(cert.oldId, cert.newId) :=
        Transition(cert.oldKey, cert.newKey, cert.timestamp, cert.signature, now)];
      if oldDevice.Some? && oldDevice.value.status == TrustStatus.Trusted {
        if cert.newId !in devices {
          devices := devices[cert.newId :=
            Device(cert.newKey, oldDevice.value.name, now, now, TrustStatus.Trusted, None)];
        } else if devices[cert.newId].status == TrustStatus.Pending {
          devices := devices[cert.newId :=
            devices[cert.newId].(status := TrustStatus.Trusted, lastSeen := now)];
        }
      }
      return Ok(());
    }

    /** The rows a SELECT on one endpoint gives, in some order. */
    method Neighbours(id: DeviceId) returns (rows: seq<DeviceId>)
      ensures forall d :: d in rows <==> (id, d) in Undirected(transitions.Keys)
    {
      var successors := set e | e in transitions.Keys && e.0 == id :: e.1;
      var predecessors := set e | e in transitions.Keys && e.1 == id :: e.0;
      var rest := successors + predecessors;
      rows := [];
      while rest != {}
        invariant forall d :: d in rows || d in rest <==> d in successors + predecessors
      {
        var d :| d in rest;
        rows := rows + [d];
        rest := rest - {d};
      }
      forall d ensures d in successors + predecessors <==> (id, d) in Undirected(transitions.Keys) {
        if d in successors { assert (id, d) in transitions.Keys; }
        if d in predecessors { assert (d, id) in transitions.Keys; }
      }
    }

    /** The timestamp fetchone() gives for a device: of any row into it. */
    method OrderKey(id: DeviceId) returns (at: real)
      ensures IntroducedAt(Contents(), id, at)
    {
      var into := set e | e in transitions.Keys && e.1 == id;
      if into == {} {
        assert forall e :: e in transitions && e.1 == id ==> e in into;
        return 0.0;
      }
      var e :| e in into;
      return transitions[e].timestamp;
    }

    ghost function Nodes(id: DeviceId): (nodes: set<DeviceId>)
      reads this
      ensures id in nodes
      ensures forall e :: e in Undirected(transitions.Keys) ==> e.1 in nodes
    {
      {id} + set e | e in Undirected(transitions.Keys) :: e.1
    }

    /** The worklist search. It ends on cyclic and branching graphs because
      * each round either shortens the queue or visits a new node. */
    method Component(id: DeviceId) returns (visited: set<DeviceId>)
      ensures forall d :: d in visited <==> SameChain(Contents(), id, d)
    {
      ghost var edges := Undirected(transitions.Keys);
      ghost var nodes := Nodes(id);
      visited := {};
      var queue := [id];
      ReachesSelf(edges, id);
      while queue != []
        invariant Explored(edges, nodes, id, visited, queue)
        decreases |nodes - visited|, |queue|
      {
        var current := queue[|queue| - 1];
        ghost var rest := queue[..|queue| - 1];
        assert queue == rest + [current];
        queue := queue[..|queue| - 1];
        if current in visited {
          SkipKeeps(edges, nodes, id, visited, queue, current);
          continue;
        }
        var rows := Neighbours(current);
        VisitKeeps(edges, nodes, id, visited, queue, current, rows);
        visited := visited + {current};
        queue := queue + rows;
      }
      forall d | Reaches(edges, id, d) ensures d in visited {
        ClosedContainsReachable(edges, visited, id, d);
      }
    }

    /** The whole component, each member once, oldest introduction first. */
    method GetRotationChain(id: DeviceId) returns (chain: seq<DeviceId>, ghost times: seq<real>)
      ensures forall d :: d in chain <==> SameChain(Contents(), id, d)
      ensures Distinct(chain)
      ensures OrderedByIntroduction(Contents(), chain, times)
    {
      var visited := Component(id);
      var rest := visited;
      chain := [];
      var keys := [];
      while rest != {}
        invariant rest <= visited && Distinct(chain)
        invariant forall d :: d in chain <==> d in visited - rest
        invariant OrderedByIntroduction(Contents(), chain, keys)
      {
        var d :| d in rest;
        var key := OrderKey(d);
        var k := 0;
        while k < |chain| && keys[k] <= key
          invariant 0 <= k <= |chain|
          invariant forall i :: 0 <= i < k ==> keys[i] <= key
        {
          k := k + 1;
        }
        InsertKeepsMembers(chain, k, d);
        InsertKeepsOrder(Contents(), chain, keys, k, d, key);
        chain, keys := Insert(chain, k, d), Insert(keys, k, key);
        rest := rest - {d};
      }
      times := keys;
    }

    method Check(id: DeviceId, key: Key) returns (decision: TrustDecision)
      ensures decision == TrustModel.Check(Contents(), id, key)
    {
      if id !in devices {
        return TrustDecision.Unknown;
      }
      var device := devices[id];
      if device.publicKey != key {
        return TrustDecision.KeyChanged;
      }
      if device.status == TrustStatus.Revoked {
        return TrustDecision.Revoked;
      }
      if device.status == TrustStatus.Trusted {
        return TrustDecision.Trusted;
      }
      return TrustDecision.Pending;
    }

    method CheckWithRotation(id: DeviceId, key: Key) returns (decision: TrustDecision)
      ensures decision == Verdict(Contents(), id, key)
    {
      var direct := Check(id, key);
      if direct == TrustDecision.KeyChanged {
        return direct;
      }
      var chain, _ := GetRotationChain(id);
      ReachesSelf(Undirected(transitions.Keys), id);
      var chainHasTrusted := false;
      for i := 0 to |chain|
        invariant forall j :: 0 <= j < i ==> !HasStatus(Contents(), chain[j], TrustStatus.Revoked)
        invariant chainHasTrusted <==> exists j :: 0 <= j < i && HasStatus(Contents(), chain[j], TrustStatus.Trusted)
      {
        assert SameChain(Contents(), id, chain[i]);
        if chain[i] in devices {
          var status := devices[chain[i]].status;
          if status == TrustStatus.Revoked {
            return TrustDecision.Revoked;
          }
          if status == TrustStatus.Trusted {
            chainHasTrusted := true;
          }
        }
      }
      ChainHasByIndex(Contents(), id, chain, TrustStatus.Revoked);
      ChainHasByIndex(Contents(), id, chain, TrustStatus.Trusted);
      assert SameChain(Contents(), id, id);
      if chainHasTrusted {
        return TrustDecision.Trusted;
      }
      return direct;
    }
  }

  /** The search invariant: only the component is touched, and every
    * neighbour of a visited node is visited or waiting. */
  ghost predicate Explored(edges: Edges, nodes: set<DeviceId>, id: DeviceId, visited: set<DeviceId>,
                           queue: seq<DeviceId>) {
    && (id in visited || id in queue)
    && (forall d :: d in visited || d in queue ==> d in nodes && Reaches(edges, id, d))
    && (forall e :: e in edges && e.0 in visited ==> e.1 in visited || e.1 in queue)
  }

  lemma SkipKeeps(edges: Edges, nodes: set<DeviceId>, id: DeviceId, visited: set<DeviceId>, queue: seq<DeviceId>,
                  current: DeviceId)
    requires Explored(edges, nodes, id, visited, queue + [current]) && current in visited
    ensures Explored(edges, nodes, id, visited, queue)
  {}

  lemma VisitKeeps(edges: Edges, nodes: set<DeviceId>, id: DeviceId, visited: set<DeviceId>,
                   queue: seq<DeviceId>, current: DeviceId, rows: seq<DeviceId>)
    requires Explored(edges, nodes, id, visited, queue + [current]) && current !in visited
    requires forall e :: e in edges ==> e.1 in nodes
    requires forall d :: d in rows <==> (current, d) in edges
    ensures Explored(edges, nodes, id, visited + {current}, queue + rows)
    ensures |nodes - (visited + {current})| < |nodes - visited|
  {
    assert forall d :: d in queue + [current] <==> d in queue || d == current;
    assert forall d :: d in queue + rows <==> d in queue || d in rows;
    forall d | d in rows ensures d in nodes && Reaches(edges, id, d) {
      assert current in queue + [current];
      ReachesStep(edges, id, current, d);
    }
    forall e | e in edges && e.0 == current ensures e.1 in rows {
      assert e == (current, e.1);
    }
    assert nodes - (visited + {current}) == (nodes - visited) - {current};
    assert current in nodes by { assert current in queue + [current]; }
  }

  /** chain with d put in at place k. */
  function Insert<T>(chain: seq<T>, k: nat, d: T): (out: seq<T>)
    requires k <= |chain|
    ensures |out| == |chain| + 1 && out[k] == d
    ensures forall i :: 0 <= i < k ==> out[i] == chain[i]
    ensures forall i :: k < i < |out| ==> out[i] == chain[i - 1]
  {
    chain[..k] + [d] + chain[k..]
  }

  lemma InsertKeepsMembers(chain: seq<DeviceId>, k: nat, d: DeviceId)
    requires k <= |chain| && Distinct(chain) && d !in chain
    ensures Distinct(Insert(chain, k, d))
    ensures forall x :: x in Insert(chain, k, d) <==> x == d || x in chain
  {}

  lemma InsertKeepsOrder(s: Store, chain: seq<DeviceId>, times: seq<real>, k: nat, d: DeviceId, at: real)
    requires OrderedByIntroduction(s, chain, times) && IntroducedAt(s, d, at) && k <= |chain|
    requires forall i :: 0 <= i < k ==> times[i] <= at
    requires k < |chain| ==> at < times[k]
    ensures OrderedByIntroduction(s, Insert(chain, k, d), Insert(times, k, at))
  {}

  lemma ChainHasByIndex(s: Store, id: DeviceId, chain: seq<DeviceId>, status: TrustStatus)
    requires forall d :: d in chain <==> SameChain(s, id, d)
    ensures ChainHas(s, id, status) <==> exists j :: 0 <= j < |chain| && HasStatus(s, chain[j], status)
  {}
}
