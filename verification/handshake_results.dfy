/** What the result of a completed handshake of core/crypto/handshake.py says,
  * in terms of the messages, the signatures and the store it was checked with. */
module HandshakeResults {
  import opened Wrappers
  import opened Bytes
  import opened TextCodes
  import opened Hex
  import opened SignedPayloads
  import opened TrustModel
  import opened Handshakes
  import opened HandshakeRuns

  // ---- Each session by itself -----------------------------------------------------------------

  /** A session signed what it claims to have signed, with its own key. */
  ghost predicate SignedByMe(a: Asym, s: Session) {
    && (s.role.Responder? && s.resp.Some? ==>
          s.respSig == ToHex(a.sign(s.me, ResponderTranscript(s.init, s.resp.value))))
    && (s.role.Initiator? && s.finishSig.Some? ==>
          s.Responded() && s.finishSig == Some(ToHex(a.sign(s.me, s.InitTranscript()))))
  }

  /** The peer's key is 32 bytes whose digest is its device id, and it verified the
    * peer's signature on this session's transcript. */
  ghost predicate PeerVerified(a: Asym, s: Session, key: Bytes) {
    && s.Responded() && s.finishSig.Some?
    && FromHex(PeerHello(s).publicKey) == Some(key) && |key| == 32 && PeerHello(s).deviceId == ToHex(a.sha256(key))
    && (if s.role.Initiator? then Verifies(a, key, s.respSig, ResponderTranscript(s.init, s.resp.value))
        else Verifies(a, key, s.finishSig.value, s.InitTranscript()))
  }

  /** The result names the peer of the messages, and its secret is the exchange of
    * this session's ephemeral key with the peer's. */
  ghost predicate ResultNamesPeer(a: Asym, s: Session, r: HandshakeResult) {
    && s.Responded()
    && var h := PeerHello(s);
       && r.peerId == h.deviceId && r.peerKey == h.publicKey && r.peerName == h.senderName
       && var p := FromHex(h.ephemeralKey);
          p.Some? && |p.value| == 32 && a.dh(s.eph, p.value) == Some(r.secret)
  }

  /** The hash is taken over both signatures. */
  ghost predicate HashedOver(a: Asym, s: Session, r: HandshakeResult) {
    && s.Responded() && s.finishSig.Some? && IsAscii(s.finishSig.value)
    && r.transcriptHash
         == a.sha256(FinalTranscript(InitiatorTranscript(ResponderTranscript(s.init, s.resp.value), s.respSig),
                                     s.finishSig.value))
  }

  ghost predicate SessionOk(a: Asym, s: Session) {
    && SignedByMe(a, s)
    && s.init.Joined() && (s.resp.Some? ==> s.resp.value.Joined() && IsAscii(s.respSig))
    // a responder has checked its peer by the time it fixes its response
    && (s.role.Responder? && s.resp.Some? ==>
          VerifyIdentity(a, s.init.deviceId, s.init.publicKey).Some?)
    && (s.result.Some? && s.result.value.Ok? ==>
          var r := s.result.value.value;
          && ResultNamesPeer(a, s, r) && HashedOver(a, s, r) && r.decision == s.decision
          && exists key :: PeerVerified(a, s, key))
  }

  ghost predicate SessionsOk(a: Asym, w: World) {
    forall i :: 0 <= i < |w.sessions| ==> SessionOk(a, w.sessions[i])
  }

  lemma IdentityIs(a: Asym, id: Text, key: Text)
    ensures VerifyIdentity(a, id, key).Some? ==>
              FromHex(key) == VerifyIdentity(a, id, key) && id == ToHex(a.sha256(VerifyIdentity(a, id, key).value))
  {}

  lemma OnInitOk(a: Asym, local: Local, me: Private, eph: Private, nonce: Text, name: Text, init: Hello, now: real)
    requires init.Joined() && Joined(nonce) && Joined(name)
    ensures SessionOk(a, OnInit(a, local, me, eph, nonce, name, init, now).1)
  {
    MyHelloJoined(a, ResponseKind(), me, eph, nonce, name);
  }

  lemma OnResponseOk(a: Asym, local: Local, s: Session, resp: Hello, sig: Text, now: real)
    requires SessionOk(a, s) && s.role.Initiator? && s.result.None? && s.resp.None? && resp.Joined()
    ensures SessionOk(a, OnResponse(a, local, s, resp, sig, now).1)
  {
    var t := OnResponse(a, local, s, resp, sig, now).1;
    if t.result.value.Ok? {
      IdentityIs(a, resp.deviceId, resp.publicKey);
      assert PeerVerified(a, t, VerifyIdentity(a, resp.deviceId, resp.publicKey).value);
    }
  }

  lemma OnFinishOk(a: Asym, s: Session, sig: Text)
    requires SessionOk(a, s) && s.role.Responder? && s.result.None? && s.Responded()
    ensures SessionOk(a, OnFinish(a, s, sig))
  {
    var t := OnFinish(a, s, sig);
    if t.result.value.Ok? {
      IdentityIs(a, s.init.deviceId, s.init.publicKey);
      assert PeerVerified(a, t, FromHex(s.init.publicKey).value);
    }
  }

  lemma StepKeepsSessions(a: Asym, w: World, step: Step)
    requires SessionsOk(a, w)
    ensures SessionsOk(a, Next(a, w, step))
  {
    if Enabled(w, step) {
      if step.Begin? {
        MyHelloJoined(a, InitKind(), step.me, step.eph, step.nonce, step.name);
      } else if step.ReceiveInit? {
        OnInitOk(a, w.locals[step.me], step.me, step.eph, step.nonce, step.name, step.init, step.now);
      } else if step.ReceiveResponse? {
        OnResponseOk(a, w.locals[w.sessions[step.i].me], w.sessions[step.i], step.resp, step.sig, step.now);
      } else if step.ReceiveFinish? {
        OnFinishOk(a, w.sessions[step.i], step.sig);
      }
    }
  }

  lemma {:induction false} SessionsStayOk(a: Asym, locals: map<Private, Local>, steps: seq<Step>)
    ensures SessionsOk(a, After(a, World(locals, [], []), steps))
  {
    if steps != [] {
      SessionsStayOk(a, locals, steps[..|steps| - 1]);
      StepKeepsSessions(a, After(a, World(locals, [], []), steps[..|steps| - 1]), steps[|steps| - 1]);
    }
  }

  /** What a check of the peer refuses, and why: a nonce seen within the window, an
    * id that is not the digest of the key, a row with another key or a revoked
    * row. The first of these counts. */
  lemma CheckRefusesExactly(a: Asym, local: Local, h: Hello, now: real)
    ensures var r := CheckPeer(a, local, h, now).1;
            var replayed := h.nonce in local.seen && now - local.seen[h.nonce] <= local.ttl;
            var key := FromHex(h.publicKey);
            var named := key.Some? && h.deviceId == ToHex(a.sha256(key.value));
            var row := if local.store.Some? && h.deviceId in local.store.value.devices
                       then Some(local.store.value.devices[h.deviceId]) else None;
            && (r == Err(Replay) <==> replayed)
            && (r == Err(IdentityMismatch) <==> !replayed && !named)
            && (r == Err(DeviceKeyChanged) <==> !replayed && named && row.Some? && row.value.publicKey != h.publicKey)
            && (r == Err(DeviceRevoked) <==>
                  !replayed && named && row.Some? && row.value.publicKey == h.publicKey && row.value.status.Revoked?)
            && (r.Ok? ==> key == Some(r.value.0))
  {}

  /** Why a handshake that passed its check of the peer still fails: a key that is
    * not 32 bytes, a signature that does not verify, or an ephemeral key that
    * gives no secret. */
  lemma FailsExactly(a: Asym, local: Local, s: Session, resp: Hello, sig: Text, now: real)
    requires s.role.Initiator? && s.resp.None? && s.result.None?
    ensures var (_, t, message) := OnResponse(a, local, s, resp, sig, now);
            var check := CheckPeer(a, local, resp, now).1;
            && t.result.Some?
            && (check.Err? ==> t.result == Some(Err(check.error)) && message.None?)
            && (check.Ok? ==>
                  var key := check.value.0;
                  var signed := Verifies(a, key, sig, ResponderTranscript(s.init, resp));
                  && (t.result == Some(Err(MalformedKey)) <==> |key| != 32)
                  && (t.result == Some(Err(BadSignature)) <==> |key| == 32 && !signed)
                  && (t.result == Some(Err(BadEphemeral)) <==>
                        |key| == 32 && signed && SharedSecret(a, s.eph, resp.ephemeralKey).None?)
                  && (message.Some? <==> |key| == 32 && signed))
  {}

  lemma FinishFailsExactly(a: Asym, s: Session, sig: Text)
    requires s.role.Responder? && s.Responded() && s.result.None?
    ensures var t := OnFinish(a, s, sig); var key := FromHex(s.init.publicKey);
            var wellKeyed := key.Some? && |key.value| == 32;
            var signed := wellKeyed && Verifies(a, key.value, sig, s.InitTranscript());
            && t.result.Some?
            && (t.result == Some(Err(MalformedKey)) <==> !wellKeyed)
            && (t.result == Some(Err(BadSignature)) <==> wellKeyed && !signed)
            && (t.result == Some(Err(BadEphemeral)) <==> signed && SharedSecret(a, s.eph, s.init.ephemeralKey).None?)
  {}

  // ---- The check a decision comes from ----------------------------------------------------------

  /** Step n of a run is where session i of device me checked the peer that
    * presents itself as h. */
  ghost predicate ChecksAt(w: World, step: Step, i: nat, me: Private, h: Hello) {
    && Enabled(w, step)
    && ((step.ReceiveInit? && i == |w.sessions| && step.me == me && step.init == h)
        || (step.ReceiveResponse? && step.i == i && w.sessions[i].me == me && step.resp == h))
  }

  /** What the device's store says of the peer, right after it was checked. */
  ghost predicate StoreSays(store: Option<Store>, h: Hello, d: TrustDecision) {
    if store.None? then d == TrustDecision.Unknown
    else
      && h.deviceId in store.value.devices
      && var row := store.value.devices[h.deviceId];
         && row.publicKey == h.publicKey && !row.status.Revoked?
         && d == if row.status.Trusted? then TrustDecision.Trusted else TrustDecision.Pending
  }

  ghost predicate DecidedAt(a: Asym, w: World, step: Step, i: nat, me: Private, h: Hello, d: TrustDecision) {
    && ChecksAt(w, step, i, me, h)
    && me in Next(a, w, step).locals && StoreSays(Next(a, w, step).locals[me].store, h, d)
  }

  ghost predicate Decided(a: Asym, w: World, steps: seq<Step>, i: nat, s: Session) {
    s.resp.Some? ==>
      exists n: nat ::
        n < |steps| && DecidedAt(a, After(a, w, steps[..n]), steps[n], i, s.me, PeerHello(s), s.decision)
  }

  lemma CheckDecides(a: Asym, local: Local, h: Hello, now: real)
    ensures var (after, r) := CheckPeer(a, local, h, now);
            r.Ok? ==> StoreSays(after.store, h, r.value.1)
  {
    GateExtends(local.store, h.deviceId, h.publicKey, h.senderName, now);
  }

  /** A session that has just fixed its response decided in that very step. */
  lemma DecidesNow(a: Asym, w: World, step: Step, i: nat)
    requires Enabled(w, step) && (step.ReceiveInit? || step.ReceiveResponse?)
    requires i == if step.ReceiveInit? then |w.sessions| else step.i
    ensures i < |Next(a, w, step).sessions|
    ensures var s := Next(a, w, step).sessions[i];
            s.resp.Some? ==> DecidedAt(a, w, step, i, s.me, PeerHello(s), s.decision)
  {
    if step.ReceiveInit? {
      CheckDecides(a, w.locals[step.me], step.init, step.now);
    } else {
      CheckDecides(a, w.locals[w.sessions[i].me], step.resp, step.now);
    }
  }

  lemma OthersUnchanged(a: Asym, w: World, step: Step, i: nat)
    requires i < |Next(a, w, step).sessions|
    requires !(step.ReceiveInit? && i == |w.sessions|) && !(step.ReceiveResponse? && step.i == i)
    ensures var t := Next(a, w, step).sessions[i];
            t.resp.Some? ==> i < |w.sessions| && var s := w.sessions[i];
              s.resp == t.resp && s.init == t.init && s.role == t.role && s.me == t.me && s.decision == t.decision
  {}

  lemma DecidedStays(a: Asym, w: World, steps: seq<Step>, i: nat, s: Session, t: Session)
    requires steps != [] && Decided(a, w, steps[..|steps| - 1], i, s)
    requires s.resp == t.resp && s.init == t.init && s.role == t.role && s.me == t.me && s.decision == t.decision
    ensures Decided(a, w, steps, i, t)
  {
    if t.resp.Some? {
      var before := steps[..|steps| - 1];
      var n: nat :| n < |before|
        && DecidedAt(a, After(a, w, before[..n]), before[n], i, s.me, PeerHello(s), s.decision);
      assert before[..n] == steps[..n] && before[n] == steps[n];
      assert n < |steps| && DecidedAt(a, After(a, w, steps[..n]), steps[n], i, t.me, PeerHello(t), t.decision);
    }
  }

  lemma {:induction false} AllDecided(a: Asym, locals: map<Private, Local>, steps: seq<Step>, i: nat)
    requires i < |After(a, World(locals, [], []), steps).sessions|
    ensures Decided(a, World(locals, [], []), steps, i, After(a, World(locals, [], []), steps).sessions[i])
  {
    var w0 := World(locals, [], []);
    var n := |steps| - 1;
    var w, step := After(a, w0, steps[..n]), steps[n];
    var t := After(a, w0, steps).sessions[i];
    if Enabled(w, step) && ((step.ReceiveInit? && i == |w.sessions|) || (step.ReceiveResponse? && step.i == i)) {
      DecidesNow(a, w, step, i);
      if t.resp.Some? { assert n < |steps| && DecidedAt(a, w, steps[n], i, t.me, PeerHello(t), t.decision); }
    } else if t.resp.Some? {
      assert Next(a, w, step).sessions[i] == t;
      if Enabled(w, step) { OthersUnchanged(a, w, step, i); }
      AllDecided(a, locals, steps[..n], i);
      DecidedStays(a, w0, steps, i, w.sessions[i], t);
    }
  }

  // ---- The theorem ---------------------------------------------------------------------------------

  /** In every run a completed handshake reports the id, key and name of the hello
    * it received, from a peer whose 32-byte key has that id and verified its
    * signature; a secret exchanged with that hello's ephemeral key; and as its
    * decision what the device's store, if it had one, said of the peer right
    * after the step that checked it. */
  lemma ResultMeans(a: Asym, locals: map<Private, Local>, steps: seq<Step>, i: nat, r: HandshakeResult)
      returns (n: nat, key: Bytes)
    requires Completed(After(a, World(locals, [], []), steps), i, r)
    ensures var s := After(a, World(locals, [], []), steps).sessions[i];
            && ResultNamesPeer(a, s, r) && PeerVerified(a, s, key) && SignedByMe(a, s)
            && n < |steps|
            && var w := After(a, World(locals, [], []), steps[..n]);
               && ChecksAt(w, steps[n], i, s.me, PeerHello(s))
               && var after := After(a, World(locals, [], []), steps[..n + 1]);
                  s.me in after.locals && StoreSays(after.locals[s.me].store, PeerHello(s), r.decision)
  {
    var w0 := World(locals, [], []);
    var s := After(a, w0, steps).sessions[i];
    SessionsStayOk(a, locals, steps);
    assert SessionOk(a, s);
    key :| PeerVerified(a, s, key);
    AllDecided(a, locals, steps, i);
    n :| n < |steps| && DecidedAt(a, After(a, w0, steps[..n]), steps[n], i, s.me, PeerHello(s), s.decision);
    assert steps[..n + 1][..n] == steps[..n];
  }

  // ---- What a transcript hash determines --------------------------------------------------------------

  ghost predicate Finished(s: Session) { s.Responded() && s.finishSig.Some? && IsAscii(s.finishSig.value) }

  function Hashed(s: Session): Bytes
    requires s.resp.Some? && IsAscii(s.respSig) && s.finishSig.Some? && IsAscii(s.finishSig.value)
  {
    FinalTranscript(InitiatorTranscript(ResponderTranscript(s.init, s.resp.value), s.respSig), s.finishSig.value)
  }

  /** SHA-256 does not collide on the transcripts of these sessions. */
  ghost predicate HashesApart(a: Asym, w: World) {
    forall i, j :: 0 <= i < |w.sessions| && 0 <= j < |w.sessions| ==>
      var s, t := w.sessions[i], w.sessions[j];
      Finished(s) && Finished(t) && a.sha256(Hashed(s)) == a.sha256(Hashed(t)) ==> Hashed(s) == Hashed(t)
  }

  /** In every run two completed sessions with one transcript hash have the same
    * twelve fields, and the same signature texts put together. */
  lemma HashDeterminesFields(a: Asym, locals: map<Private, Local>, steps: seq<Step>, i: nat, q: HandshakeResult,
                             j: nat, r: HandshakeResult)
    requires HashesApart(a, After(a, World(locals, [], []), steps))
    requires var w := After(a, World(locals, [], []), steps); Completed(w, i, q) && Completed(w, j, r)
    requires q.transcriptHash == r.transcriptHash
    ensures var s := After(a, World(locals, [], []), steps).sessions[i];
            var t := After(a, World(locals, [], []), steps).sessions[j];
            && Finished(s) && Finished(t) && s.init == t.init && s.resp == t.resp
            && s.respSig + (Newline + s.finishSig.value) == t.respSig + (Newline + t.finishSig.value)
  {
    var w := After(a, World(locals, [], []), steps);
    SessionsStayOk(a, locals, steps);
    var s, t := w.sessions[i], w.sessions[j];
    assert SessionOk(a, s) && SessionOk(a, t);
    assert Finished(s) && Finished(t) && Hashed(s) == Hashed(t);
    FinalTranscriptExactly(s.init, s.resp.value, s.respSig, s.finishSig.value,
      t.init, t.resp.value, t.respSig, t.finishSig.value);
  }
}
