/** NonceCache of core/crypto/handshake.py: replay detection that forgets what
  * has expired on every call. */
module NonceCaches {
  import opened TextCodes

  type Seen = map<Text, real>

  function Unexpired(seen: Seen, ttl: real, now: real): Seen {
    map k | k in seen && now - seen[k] <= ttl :: seen[k]
  }

  function Step(seen: Seen, ttl: real, nonce: Text, now: real): (Seen, bool) {
    var kept := Unexpired(seen, ttl, now);
    if nonce in kept then (kept, false) else (kept[nonce := now], true)
  }

  class NonceCache {
    const ttl: real
    var seen: Seen

    constructor (ttl: real)
      ensures this.ttl == ttl && seen == map[]
    {
      this.ttl := ttl;
      seen := map[];
    }

    method CheckAndAdd(nonce: Text, now: real) returns (unseen: bool)
      modifies this
      ensures (seen, unseen) == Step(old(seen), ttl, nonce, now)
    {
      var expired := set k | k in seen && now - seen[k] > ttl;
      ghost var gone: set<Text> := {};
      var rest := expired;
      while rest != {}
        invariant gone + rest == expired && gone !! rest
        invariant seen == old(seen) - gone
      {
        var k :| k in rest;
        seen := seen - {k};
        rest := rest - {k};
        gone := gone + {k};
      }
      assert seen == Unexpired(old(seen), ttl, now);
      if nonce in seen {
        return false;
      }
      seen := seen[nonce := now];
      return true;
    }
  }

  // ---- The specification that forgets nothing ----------------------------------------

  datatype Call = Call(nonce: Text, now: real)

  ghost predicate Nondecreasing(calls: seq<Call>) {
    forall i, j :: 0 <= i < j < |calls| ==> calls[i].now <= calls[j].now
  }

  /** Call i is fresh when no earlier fresh call for its nonce is within ttl. */
  ghost predicate Fresh(ttl: real, calls: seq<Call>, i: nat)
    requires i < |calls|
  {
    forall j :: 0 <= j < i && calls[j].nonce == calls[i].nonce && calls[i].now - calls[j].now <= ttl
                ==> !Fresh(ttl, calls, j)
  }

  /** The cache contents and the answer of the program. */
  function SeenAfter(ttl: real, calls: seq<Call>): Seen {
    if calls == [] then map[]
    else
      var last := calls[|calls| - 1];
      Step(SeenAfter(ttl, calls[..|calls| - 1]), ttl, last.nonce, last.now).0
  }

  predicate Answer(ttl: real, calls: seq<Call>, i: nat)
    requires i < |calls|
  {
    Step(SeenAfter(ttl, calls[..i]), ttl, calls[i].nonce, calls[i].now).1
  }

  /** Every entry is the time of a fresh call among the first n. */
  ghost predicate OnlyFresh(ttl: real, calls: seq<Call>, n: nat, seen: Seen)
    requires n <= |calls|
  {
    forall k :: k in seen ==> exists j :: 0 <= j < n && Fresh(ttl, calls, j)
                                          && calls[j].nonce == k && calls[j].now == seen[k]
  }

  /** Every fresh call among the first n still within ttl at time now is
    * covered by an entry at least as recent. */
  ghost predicate Covers(ttl: real, calls: seq<Call>, n: nat, seen: Seen, now: real)
    requires n <= |calls|
  {
    forall j :: 0 <= j < n && Fresh(ttl, calls, j) && now - calls[j].now <= ttl
                ==> calls[j].nonce in seen && calls[j].now <= seen[calls[j].nonce]
  }

  ghost predicate Summarises(ttl: real, calls: seq<Call>, n: nat, seen: Seen, now: real)
    requires n <= |calls|
  {
    OnlyFresh(ttl, calls, n, seen) && Covers(ttl, calls, n, seen, now)
  }

  lemma OnlyFreshStep(ttl: real, calls: seq<Call>, n: nat, seen: Seen)
    requires n < |calls| && OnlyFresh(ttl, calls, n, seen)
    requires Step(seen, ttl, calls[n].nonce, calls[n].now).1 <==> Fresh(ttl, calls, n)
    ensures OnlyFresh(ttl, calls, n + 1, Step(seen, ttl, calls[n].nonce, calls[n].now).0)
  {}

  lemma CoversStep(ttl: real, calls: seq<Call>, n: nat, seen: Seen, now: real)
    requires Nondecreasing(calls) && n < |calls| && calls[n].now <= now
    requires Covers(ttl, calls, n, seen, calls[n].now)
    requires Step(seen, ttl, calls[n].nonce, calls[n].now).1 <==> Fresh(ttl, calls, n)
    ensures Covers(ttl, calls, n + 1, Step(seen, ttl, calls[n].nonce, calls[n].now).0, now)
  {}

  lemma SeenAfterStep(ttl: real, calls: seq<Call>, m: nat)
    requires m < |calls|
    ensures SeenAfter(ttl, calls[..m + 1]) == Step(SeenAfter(ttl, calls[..m]), ttl, calls[m].nonce, calls[m].now).0
  {
    assert calls[..m + 1][..m] == calls[..m];
  }

  lemma SummaryStep(ttl: real, calls: seq<Call>, n: nat, seen: Seen, now: real)
    requires Nondecreasing(calls) && n < |calls| && calls[n].now <= now
    requires Summarises(ttl, calls, n, seen, calls[n].now)
    ensures Summarises(ttl, calls, n + 1, Step(seen, ttl, calls[n].nonce, calls[n].now).0, now)
  {
    AnswerIsFresh(ttl, calls, n, seen);
    OnlyFreshStep(ttl, calls, n, seen);
    CoversStep(ttl, calls, n, seen, now);
  }

  lemma {:induction false} CacheSummarises(ttl: real, calls: seq<Call>, n: nat, now: real)
    requires Nondecreasing(calls) && n <= |calls|
    requires n > 0 ==> calls[n - 1].now <= now
    ensures Summarises(ttl, calls, n, SeenAfter(ttl, calls[..n]), now)
    decreases n
  {
    if n > 0 {
      var m := n - 1;
      SeenAfterStep(ttl, calls, m);
      CacheSummarises(ttl, calls, m, calls[m].now);
      SummaryStep(ttl, calls, m, SeenAfter(ttl, calls[..m]), now);
    }
  }

  lemma AnswerIsFresh(ttl: real, calls: seq<Call>, i: nat, seen: Seen)
    requires i < |calls| && Summarises(ttl, calls, i, seen, calls[i].now)
    ensures Step(seen, ttl, calls[i].nonce, calls[i].now).1 <==> Fresh(ttl, calls, i)
  {}

  /** Under a clock that does not run backwards the cache answers every call
    * as if it had kept the whole history. */
  lemma CacheMeetsHistory(ttl: real, calls: seq<Call>, i: nat)
    requires Nondecreasing(calls) && i < |calls|
    ensures Answer(ttl, calls, i) <==> Fresh(ttl, calls, i)
  {
    CacheSummarises(ttl, calls, i, calls[i].now);
    AnswerIsFresh(ttl, calls, i, SeenAfter(ttl, calls[..i]));
  }
}
