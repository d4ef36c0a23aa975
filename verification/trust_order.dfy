/** When the list of get_rotation_chain in core/trust/store.py is in the order
  * its documentation promises, oldest device first. */
module ChainOrder {
  import opened Graph
  import opened TrustModel
  import opened TrustStores
  import opened TrustRuns

  /** A list GetRotationChain may return: sorted() leaves ties in any order, and
    * fetchone() may give any of several rows. */
  ghost predicate Admissible(s: Store, id: DeviceId, chain: seq<DeviceId>, times: seq<real>) {
    && (forall d :: d in chain <==> SameChain(s, id, d))
    && Distinct(chain) && OrderedByIntroduction(s, chain, times)
  }

  ghost predicate Precedes(chain: seq<DeviceId>, a: DeviceId, b: DeviceId) {
    exists i, j :: 0 <= i < j < |chain| && chain[i] == a && chain[j] == b
  }

  ghost predicate AlwaysEarlier(s: Store, a: DeviceId, b: DeviceId) {
    forall x, y :: IntroducedAt(s, a, x) && IntroducedAt(s, b, y) ==> x < y
  }

  lemma EarlierComesFirst(s: Store, id: DeviceId, chain: seq<DeviceId>, times: seq<real>, a: DeviceId, b: DeviceId)
    requires Admissible(s, id, chain, times) && SameChain(s, id, a) && SameChain(s, id, b) && AlwaysEarlier(s, a, b)
    ensures Precedes(chain, a, b)
  {}

  // ---- Building a list with b in front of a ---------------------------------------------------------

  lemma SomeIntroduction(s: Store, d: DeviceId) returns (at: real)
    ensures IntroducedAt(s, d, at)
  {
    if e :| e in s.transitions && e.1 == d {
      at := s.transitions[e].timestamp;
    } else {
      at := 0.0;
    }
  }

  lemma FindPlace(times: seq<real>, at: real) returns (k: nat)
    ensures k <= |times| && (forall i :: 0 <= i < k ==> times[i] <= at)
    ensures k < |times| ==> at < times[k]
  {
    k := 0;
    while k < |times| && times[k] <= at
      invariant k <= |times| && forall i :: 0 <= i < k ==> times[i] <= at
    {
      k := k + 1;
    }
  }

  lemma InsertKeepsPrecedes(chain: seq<DeviceId>, k: nat, d: DeviceId, a: DeviceId, b: DeviceId)
    requires k <= |chain| && Precedes(chain, b, a)
    ensures Precedes(Insert(chain, k, d), b, a)
  {
    var i, j :| 0 <= i < j < |chain| && chain[i] == b && chain[j] == a;
    var out := Insert(chain, k, d);
    var p, q := if i < k then i else i + 1, if j < k then j else j + 1;
    assert p < q && out[p] == b && out[q] == a;
  }

  /** Some list may be returned. */
  lemma SomeList(s: Store, id: DeviceId) returns (chain: seq<DeviceId>, times: seq<real>)
    ensures Admissible(s, id, chain, times)
  {
    chain, times := [], [];
    var members := Members(s, id);
    forall d ensures d in members <==> SameChain(s, id, d) { MembersAreChain(s, id, d); }
    var rest := members;
    while rest != {}
      invariant rest <= members && Distinct(chain)
      invariant forall d :: d in chain <==> d in members - rest
      invariant OrderedByIntroduction(s, chain, times)
    {
      var d :| d in rest;
      var at := SomeIntroduction(s, d);
      var k := FindPlace(times, at);
      InsertKeepsMembers(chain, k, d);
      InsertKeepsOrder(s, chain, times, k, d, at);
      chain, times := Insert(chain, k, d), Insert(times, k, at);
      rest := rest - {d};
    }
  }

  ghost function Members(s: Store, id: DeviceId): set<DeviceId> {
    set d | d in {id} + (set e | e in Undirected(s.transitions.Keys) :: e.1) && SameChain(s, id, d)
  }

  lemma MembersAreChain(s: Store, id: DeviceId, d: DeviceId)
    ensures d in Members(s, id) <==> SameChain(s, id, d)
  {
    var edges := Undirected(s.transitions.Keys);
    var nodes := {id} + set e | e in edges :: e.1;
    if SameChain(s, id, d) { ClosedContainsReachable(edges, nodes, id, d); }
  }

  lemma ListWithLaterFirst(s: Store, id: DeviceId, a: DeviceId, b: DeviceId, x: real, y: real)
      returns (chain: seq<DeviceId>, times: seq<real>)
    requires a != b && SameChain(s, id, a) && SameChain(s, id, b)
    requires IntroducedAt(s, a, x) && IntroducedAt(s, b, y) && y <= x
    ensures Admissible(s, id, chain, times) && Precedes(chain, b, a)
  {
    chain, times := [b, a], [y, x];
    var members := Members(s, id);
    forall d ensures d in members <==> SameChain(s, id, d) { MembersAreChain(s, id, d); }
    var rest := members - {a, b};
    assert chain[0] == b && chain[1] == a;
    while rest != {}
      invariant rest <= members && Distinct(chain) && Precedes(chain, b, a)
      invariant forall d :: d in chain <==> d in members - rest
      invariant OrderedByIntroduction(s, chain, times)
    {
      var d :| d in rest;
      var at := SomeIntroduction(s, d);
      var k := FindPlace(times, at);
      InsertKeepsMembers(chain, k, d);
      InsertKeepsOrder(s, chain, times, k, d, at);
      InsertKeepsPrecedes(chain, k, d, a, b);
      chain, times := Insert(chain, k, d), Insert(times, k, at);
      rest := rest - {d};
    }
  }

  lemma NotBothWays(chain: seq<DeviceId>, a: DeviceId, b: DeviceId)
    requires Distinct(chain) && Precedes(chain, b, a)
    ensures !Precedes(chain, a, b)
  {}

  /** The list is sure to have a before b exactly when every transition into a
    * is stamped earlier than every transition into b, a device without one
    * counting as zero. Neither the order of recording nor the direction of a
    * rotation matters. */
  lemma OldestFirstExactly(s: Store, id: DeviceId, a: DeviceId, b: DeviceId)
    requires a != b && SameChain(s, id, a) && SameChain(s, id, b)
    ensures (forall chain, times :: Admissible(s, id, chain, times) ==> Precedes(chain, a, b)) <==>
      AlwaysEarlier(s, a, b)
  {
    if AlwaysEarlier(s, a, b) {
      forall chain, times | Admissible(s, id, chain, times) ensures Precedes(chain, a, b) {
        EarlierComesFirst(s, id, chain, times, a, b);
      }
    } else {
      var x, y :| IntroducedAt(s, a, x) && IntroducedAt(s, b, y) && y <= x;
      var chain, times := ListWithLaterFirst(s, id, a, b, x, y);
      NotBothWays(chain, a, b);
    }
  }

  // ---- The documented order ----------------------------------------------------------------------------------

  /** The old device of every recorded transition comes before the new one. */
  ghost predicate OldestFirst(s: Store, chain: seq<DeviceId>) {
    forall e :: e in s.transitions && e.0 in chain ==> Precedes(chain, e.0, e.1)
  }

  lemma BothEndsInChain(s: Store, id: DeviceId, e: (DeviceId, DeviceId))
    requires e in s.transitions && SameChain(s, id, e.0)
    ensures SameChain(s, id, e.1)
  {
    ReachesStep(Undirected(s.transitions.Keys), id, e.0, e.1);
  }

  /** A transition whose new device may carry no later stamp than its old one
    * comes out in the wrong order in some list. */
  lemma SomeListIsWrong(s: Store, id: DeviceId, e: (DeviceId, DeviceId))
      returns (chain: seq<DeviceId>, times: seq<real>)
    requires e in s.transitions && SameChain(s, id, e.0) && !AlwaysEarlier(s, e.0, e.1)
    ensures Admissible(s, id, chain, times) && !OldestFirst(s, chain)
  {
    BothEndsInChain(s, id, e);
    if e.0 == e.1 {
      chain, times := SomeList(s, id);
      assert !Precedes(chain, e.0, e.1);
    } else {
      var x, y :| IntroducedAt(s, e.0, x) && IntroducedAt(s, e.1, y) && y <= x;
      chain, times := ListWithLaterFirst(s, id, e.0, e.1, x, y);
      NotBothWays(chain, e.0, e.1);
    }
    assert e.0 in chain;
  }

  /** Every list is in the documented order exactly when, across each recorded
    * transition of the component, every stamp of a transition into the old
    * device is below every stamp of one into the new. */
  lemma DocumentedOrderExactly(s: Store, id: DeviceId)
    ensures (forall chain, times :: Admissible(s, id, chain, times) ==> OldestFirst(s, chain))
       <==> (forall e :: e in s.transitions && SameChain(s, id, e.0) ==> AlwaysEarlier(s, e.0, e.1))
  {
    if forall e :: e in s.transitions && SameChain(s, id, e.0) ==> AlwaysEarlier(s, e.0, e.1) {
      forall chain, times | Admissible(s, id, chain, times) ensures OldestFirst(s, chain) {
        forall e | e in s.transitions && e.0 in chain ensures Precedes(chain, e.0, e.1) {
          BothEndsInChain(s, id, e);
          EarlierComesFirst(s, id, chain, times, e.0, e.1);
        }
      }
    } else {
      var e :| e in s.transitions && SameChain(s, id, e.0) && !AlwaysEarlier(s, e.0, e.1);
      var chain, times := SomeListIsWrong(s, id, e);
    }
  }

  /** A run after which every list is in the wrong order: the second rotation
    * carries an earlier stamp than the first, and no stamp is checked. */
  lemma WrongOrderIsReachable() returns (ops: seq<Op>, id: DeviceId)
    ensures forall chain, times :: Admissible(After(EmptyStore, ops), id, chain, times) ==>
      !OldestFirst(After(EmptyStore, ops), chain)
  {
    var a: DeviceId, b: DeviceId, c: DeviceId := [1], [2], [3];
    var o1 := Rotation(Certificate(a, [], b, [], 5.0, []), true, 0.0);
    var o2 := Rotation(Certificate(b, [], c, [], 3.0, []), true, 0.0);
    ops, id := [o1, o2], b;
    assert ops[..1] == [o1] && [o1][..0] == [];
    assert After(EmptyStore, [o1]) == Apply(EmptyStore, o1);
    var s := After(EmptyStore, ops);
    assert s == Apply(Apply(EmptyStore, o1), o2);
    assert s.transitions.Keys == {(a, b), (b, c)};
    assert s.transitions[(a, b)].timestamp == 5.0 && s.transitions[(b, c)].timestamp == 3.0;
    forall chain, times | Admissible(s, b, chain, times) ensures !OldestFirst(s, chain) {
      EarlierStampFirst(s, a, b, c, chain, times);
    }
  }

  lemma EarlierStampFirst(s: Store, a: DeviceId, b: DeviceId, c: DeviceId, chain: seq<DeviceId>, times: seq<real>)
    requires a != b && b != c && a != c && s.transitions.Keys == {(a, b), (b, c)} && Admissible(s, b, chain, times)
    requires s.transitions[(b, c)].timestamp < s.transitions[(a, b)].timestamp
    ensures !OldestFirst(s, chain)
  {
    ReachesSelf(Undirected(s.transitions.Keys), b);
    assert (b, c) in s.transitions.Keys && (a, b) in s.transitions.Keys;
    BothEndsInChain(s, b, (b, c));
    forall x, y | IntroducedAt(s, c, x) && IntroducedAt(s, b, y) ensures x < y {
      assert forall e :: e in s.transitions ==> e in s.transitions.Keys;
    }
    EarlierComesFirst(s, b, chain, times, c, b);
    NotBothWays(chain, b, c);
  }
}
