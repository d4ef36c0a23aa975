/** Hexadecimal text as bytes.hex() writes it and bytes.fromhex() reads it. */
module Hex {
  import opened Wrappers
  import opened Bytes
  import opened TextCodes

  function ToHex(b: Bytes): (t: Text)
    ensures |t| == 2 * |b| && IsAscii(t)
    ensures forall i :: 0 <= i < |t| ==> HexValue(t[i]).Some?
  {
    if b == [] then [] else [HexDigit(b[0] / 16), HexDigit(b[0] % 16)] + ToHex(b[1..])
  }

  predicate IsAscii(t: Text) { forall i :: 0 <= i < |t| ==> t[i] < 128 }

  function HexValue(c: CodePoint): (r: Option<int>)
    ensures r.Some? ==> 0 <= r.value < 16 && c < 128
  {
    if 48 <= c <= 57 then Some(c - 48)
    else if 65 <= c <= 70 then Some(c - 55)
    else if 97 <= c <= 102 then Some(c - 87)
    else None
  }

  predicate IsBlank(c: CodePoint) { c == 32 || 9 <= c <= 13 }

  /** White space is allowed between bytes, either case of digit is read. */
  function FromHex(t: Text): (r: Option<Bytes>)
    ensures r.Some? ==> IsAscii(t)
  {
    if t == [] then Some([])
    else if IsBlank(t[0]) then FromHex(t[1..])
    else if |t| < 2 then None
    else
      var hi, lo := HexValue(t[0]), HexValue(t[1]);
      if hi.None? || lo.None? then None else
      var rest := FromHex(t[2..]);
      if rest.None? then None else Some([hi.value * 16 + lo.value] + rest.value)
  }

  /** Digits and lower-case letters only. */
  lemma {:induction false} HexIsLower(b: Bytes, i: nat)
    requires i < |ToHex(b)|
    ensures 48 <= ToHex(b)[i] <= 57 || 97 <= ToHex(b)[i] <= 102
  {
    if i >= 2 { HexIsLower(b[1..], i - 2); }
  }

  lemma {:induction false} HexRoundTrip(b: Bytes)
    ensures FromHex(ToHex(b)) == Some(b)
  {
    if b != [] {
      var t := ToHex(b);
      HexRoundTrip(b[1..]);
      assert t[2..] == ToHex(b[1..]);
      assert HexValue(HexDigit(b[0] / 16)) == Some(b[0] / 16);
      assert HexValue(HexDigit(b[0] % 16)) == Some(b[0] % 16);
      assert b == [b[0]] + b[1..];
    }
  }

  /** A newline before or behind hex text makes no difference to its bytes. */
  lemma {:induction false} NewlineIsIgnored(t: Text)
    requires FromHex(t).Some?
    ensures FromHex([10] + t) == FromHex(t) && FromHex(t + [10]) == FromHex(t)
  {
    assert ([10] + t)[1..] == t;
    if t == [] {
      assert [10][1..] == [];
    } else if IsBlank(t[0]) {
      NewlineIsIgnored(t[1..]);
      assert (t + [10])[1..] == t[1..] + [10];
    } else {
      NewlineIsIgnored(t[2..]);
      assert (t + [10])[2..] == t[2..] + [10];
    }
  }
}

/** One end's steps of core/crypto/handshake.py. */
module Handshakes {
  import opened Wrappers
  import opened Bytes
  import opened TextCodes
  import opened Hex
  import opened SignedPayloads
  import opened NonceCaches
  import opened TrustModel

  type Private = Bytes

  /** Ed25519 (section 5.1 of RFC 8032), X25519 (section 6.1 of RFC 7748) and
    * SHA-256, as functions of their inputs. */
  datatype Asym = Asym(public: Private -> Bytes, sign: (Private, Bytes) -> Bytes, verify: (Bytes, Bytes, Bytes) -> bool,
                       dhPublic: Private -> Bytes, dh: (Private, Bytes) -> Option<Bytes>, sha256: Bytes -> Bytes)
  {
    ghost predicate Sound() {
      && (forall k :: |public(k)| == 32)
      && (forall k :: |dhPublic(k)| == 32)
      && (forall j, k :: dh(j, dhPublic(k)) == dh(k, dhPublic(j)))
      && (forall k, p :: dh(k, p).Some? ==> |dh(k, p).value| == 32)
      && (forall m :: |sha256(m)| == 32)
      && (forall k, m :: verify(public(k), sign(k, m), m))
    }
  }

  datatype HandshakeError =
    | Replay | IdentityMismatch | DeviceRevoked | DeviceKeyChanged | MalformedKey
    | BadSignature | BadEphemeral | Aborted

  datatype HandshakeResult = HandshakeResult(peerId: Text, peerKey: Text, peerName: Text,
                                             secret: Bytes, transcriptHash: Bytes, decision: TrustDecision)

  /** What one device keeps between sessions. */
  datatype Local = Local(seen: Seen, ttl: real, store: Option<Store>)

  function InitKind(): Text { Ascii("handshake_init") }
  function ResponseKind(): Text { Ascii("handshake_response") }

  function DeviceIdOf(a: Asym, pub: Bytes): Text { ToHex(a.sha256(pub)) }

  function MyHello(a: Asym, kind: Text, me: Private, eph: Private, nonce: Text, name: Text): Hello {
    Hello(kind, DeviceIdOf(a, a.public(me)), ToHex(a.public(me)), ToHex(a.dhPublic(eph)), nonce, name)
  }

  // ---- Checks on what the peer claims ---------------------------------------------------------

  /** _check_and_update_trust: refuse, record a first sighting, or touch. */
  function TrustGate(store: Option<Store>, id: Text, key: Text, name: Text, now: real)
      : (Option<Store>, Result<TrustDecision, HandshakeError>) {
    if store.None? then (store, Ok(TrustDecision.Unknown)) else
    var s := store.value;
    match Check(s, id, key)
    case Revoked => (store, Err(DeviceRevoked))
    case KeyChanged => (store, Err(DeviceKeyChanged))
    case Unknown => (Some(RecordFirstSeen(s, id, key, name, now).value), Ok(TrustDecision.Pending))
    case d => (Some(TouchLastSeen(s, id, now)), Ok(d))
  }

  function VerifyIdentity(a: Asym, id: Text, key: Text): Option<Bytes> {
    var pub := FromHex(key);
    if pub.Some? && DeviceIdOf(a, pub.value) == id then pub else None
  }

  /** Replay, identity and trust, in that order. The nonce stays recorded and
    * the store updated whatever happens afterwards. */
  function CheckPeer(a: Asym, local: Local, h: Hello, now: real)
      : (Local, Result<(Bytes, TrustDecision), HandshakeError>) {
    var (seen, unseen) := NonceCaches.Step(local.seen, local.ttl, h.nonce, now);
    var cached := local.(seen := seen);
    if !unseen then (cached, Err(Replay)) else
    var pub := VerifyIdentity(a, h.deviceId, h.publicKey);
    if pub.None? then (cached, Err(IdentityMismatch)) else
    var (store, d) := TrustGate(local.store, h.deviceId, h.publicKey, h.senderName, now);
    (cached.(store := store), if d.Ok? then Ok((pub.value, d.value)) else Err(d.error))
  }

  predicate Verifies(a: Asym, pub: Bytes, signature: Text, message: Bytes) {
    var sig := FromHex(signature);
    sig.Some? && a.verify(pub, sig.value, message)
  }

  function SharedSecret(a: Asym, eph: Private, peerEphemeral: Text): Option<Bytes> {
    var p := FromHex(peerEphemeral);
    if p.None? || |p.value| != 32 then None else a.dh(eph, p.value)
  }

  function Finish(a: Asym, peer: Hello, eph: Private, transcript: Bytes, finishSig: Text, d: TrustDecision)
      : Result<HandshakeResult, HandshakeError>
    requires IsAscii(finishSig)
  {
    var secret := SharedSecret(a, eph, peer.ephemeralKey);
    if secret.None? then Err(BadEphemeral)
    else Ok(HandshakeResult(peer.deviceId, peer.publicKey, peer.senderName, secret.value,
                            a.sha256(FinalTranscript(transcript, finishSig)), d))
  }

  // ---- Sessions ---------------------------------------------------------------------------------

  datatype Role = Initiator | Responder

  /** resp and respSig are set once the response is fixed on this side: made by
    * a responder, accepted by an initiator. finishSig is the initiator's
    * signature text, as made or as accepted. */
  datatype Session = Session(role: Role, me: Private, eph: Private, init: Hello, resp: Option<Hello>, respSig: Text,
                             decision: TrustDecision, finishSig: Option<Text>,
                             result: Option<Result<HandshakeResult, HandshakeError>>)
  {
    ghost predicate Responded() { resp.Some? && IsAscii(respSig) }

    function RespTranscript(): Bytes requires resp.Some? { ResponderTranscript(init, resp.value) }

    function InitTranscript(): Bytes
      requires resp.Some? && IsAscii(respSig)
    {
      InitiatorTranscript(RespTranscript(), respSig)
    }

    function OwnNonce(): Text { if role.Initiator? then init.nonce else if resp.Some? then resp.value.nonce else [] }
  }

  function Fresh(a: Asym, me: Private, eph: Private, nonce: Text, name: Text): Session {
    Session(Initiator, me, eph, MyHello(a, InitKind(), me, eph, nonce, name), None, [], TrustDecision.Unknown, None,
      None)
  }

  /** perform_handshake_responder up to sending the response; the second part
    * is the message it signed, if it got that far. */
  function OnInit(a: Asym, local: Local, me: Private, eph: Private, nonce: Text, name: Text, init: Hello, now: real)
      : (Local, Session, Option<Bytes>) {
    var (local', r) := CheckPeer(a, local, init, now);
    match r
    case Err(e) => (local', Session(Responder, me, eph, init, None, [], TrustDecision.Unknown, None, Some(Err(e))),
      None)
    case Ok((_, d)) =>
      var resp := MyHello(a, ResponseKind(), me, eph, nonce, name);
      var message := ResponderTranscript(init, resp);
      (local', Session(Responder, me, eph, init, Some(resp), ToHex(a.sign(me, message)), d, None, None), Some(message))
  }

  /** perform_handshake_initiator from the response on. */
  function OnResponse(a: Asym, local: Local, s: Session, resp: Hello, sig: Text, now: real)
      : (Local, Session, Option<Bytes>) {
    var (local', r) := CheckPeer(a, local, resp, now);
    match r
    case Err(e) => (local', s.(result := Some(Err(e))), None)
    case Ok((pub, d)) =>
      if |pub| != 32 then (local', s.(result := Some(Err(MalformedKey))), None)
      else if !Verifies(a, pub, sig, ResponderTranscript(s.init, resp)) then
        (local', s.(result := Some(Err(BadSignature))), None)
      else
        var message := InitiatorTranscript(ResponderTranscript(s.init, resp), sig);
        var mine := ToHex(a.sign(s.me, message));
        (local', s.(resp := Some(resp), respSig := sig, decision := d, finishSig := Some(mine),
                    result := Some(Finish(a, resp, s.eph, message, mine, d))), Some(message))
  }

  /** perform_handshake_responder from the finish message on. */
  function OnFinish(a: Asym, s: Session, sig: Text): Session
    requires s.resp.Some? && IsAscii(s.respSig)
  {
    var pub := FromHex(s.init.publicKey);
    if pub.None? || |pub.value| != 32 then s.(result := Some(Err(MalformedKey)))
    else if !Verifies(a, pub.value, sig, s.InitTranscript()) then s.(result := Some(Err(BadSignature)))
    else s.(finishSig := Some(sig), result := Some(Finish(a, s.init, s.eph, s.InitTranscript(), sig, s.decision)))
  }

  // ---- A handshake nobody disturbs ------------------------------------------------------------------

  lemma HonestIdentity(a: Asym, h: Hello, me: Private)
    requires h.deviceId == DeviceIdOf(a, a.public(me)) && h.publicKey == ToHex(a.public(me))
    ensures VerifyIdentity(a, h.deviceId, h.publicKey) == Some(a.public(me))
  {
    HexRoundTrip(a.public(me));
  }

  /** The peer's nonce is new to the cache and the store does not refuse it. */
  predicate Welcomes(local: Local, h: Hello, now: real) {
    && NonceCaches.Step(local.seen, local.ttl, h.nonce, now).1
    && TrustGate(local.store, h.deviceId, h.publicKey, h.senderName, now).1.Ok?
  }

  lemma SignatureVerifies(a: Asym, me: Private, message: Bytes)
    requires a.Sound()
    ensures Verifies(a, a.public(me), ToHex(a.sign(me, message)), message)
  {
    HexRoundTrip(a.sign(me, message));
  }

  /** An init and a response say which they are, so that neither can be taken for
    * the other when it is sent back. */
  lemma KindsDiffer(a: Asym, local: Local, s: Session, me: Private, eph: Private, nonce: Text, name: Text, now: real)
    requires s == Fresh(a, s.me, s.eph, s.init.nonce, s.init.senderName)
    ensures Spells(s.init.kind, "handshake_init")
    ensures var t := OnInit(a, local, me, eph, nonce, name, s.init, now).1;
            t.resp.Some? ==> Spells(t.resp.value.kind, "handshake_response") && t.resp.value.kind != s.init.kind
  {}

  predicate Spells(t: Text, s: string) { |t| == |s| && forall i :: 0 <= i < |s| ==> t[i] == s[i] as int }

  lemma OnInitHonest(a: Asym, local: Local, s: Session, you: Private, eph: Private, nonce: Text, name: Text, now: real)
    requires a.Sound() && s == Fresh(a, s.me, s.eph, s.init.nonce, s.init.senderName)
    ensures var t := OnInit(a, local, you, eph, nonce, name, s.init, now).1;
            if Welcomes(local, s.init, now) then
              && t.resp == Some(MyHello(a, ResponseKind(), you, eph, nonce, name)) && t.init == s.init
              && t.me == you && t.eph == eph
              && t.respSig == ToHex(a.sign(you, ResponderTranscript(s.init, t.resp.value)))
            else t.resp.None? && t.respSig == []
  {
    HonestIdentity(a, s.init, s.me);
  }

  lemma OnResponseHonest(a: Asym, local: Local, s: Session, t: Session, now: real)
    requires a.Sound() && s.resp.None? && s.result.None? && t.resp.Some? && t.init == s.init
    requires t.resp.value.deviceId == DeviceIdOf(a, a.public(t.me)) && t.resp.value.publicKey == ToHex(a.public(t.me))
    requires t.respSig == ToHex(a.sign(t.me, ResponderTranscript(s.init, t.resp.value)))
    ensures var u := OnResponse(a, local, s, t.resp.value, t.respSig, now).1;
            if Welcomes(local, t.resp.value, now) then
              && u.finishSig == Some(ToHex(a.sign(s.me, t.InitTranscript())))
              && u.result == Some(Finish(a, t.resp.value, s.eph, t.InitTranscript(), u.finishSig.value, u.decision))
            else u.finishSig == s.finishSig && u.result.Some? && u.result.value.Err?
  {
    HonestIdentity(a, t.resp.value, t.me);
    SignatureVerifies(a, t.me, ResponderTranscript(s.init, t.resp.value));
  }

  lemma OnFinishHonest(a: Asym, t: Session, me: Private, sig: Text)
    requires a.Sound() && t.resp.Some? && IsAscii(t.respSig) && t.init.publicKey == ToHex(a.public(me))
    requires sig == ToHex(a.sign(me, t.InitTranscript()))
    ensures OnFinish(a, t, sig).result == Some(Finish(a, t.init, t.eph, t.InitTranscript(), sig, t.decision))
  {
    HexRoundTrip(a.public(me));
    SignatureVerifies(a, me, t.InitTranscript());
  }

  /** When every message arrives as sent, both sides complete with one secret
    * and one transcript hash exactly when neither nonce is a replay, neither
    * store refuses the other and the key exchange yields a secret. */
  lemma UndisturbedCompletes(a: Asym, mine: Local, yours: Local, me: Private, eph: Private, nonce: Text, name: Text,
                             you: Private, eph': Private, nonce': Text, name': Text, t1: real, t2: real)
    requires a.Sound()
    ensures var s := Fresh(a, me, eph, nonce, name);
            var t := OnInit(a, yours, you, eph', nonce', name', s.init, t1).1;
            && t.resp.Some? == Welcomes(yours, s.init, t1) && IsAscii(t.respSig)
            && (t.resp.Some? ==>
                  var u := OnResponse(a, mine, s, t.resp.value, t.respSig, t2).1;
                  && u.finishSig.Some? == Welcomes(mine, t.resp.value, t2) && u.result.Some?
                  && (u.finishSig.None? ==> u.result.value.Err?)
                  && (u.finishSig.Some? ==>
                        var v := OnFinish(a, t, u.finishSig.value);
                        && v.result.Some?
                        && u.result.value.Ok? == v.result.value.Ok? == a.dh(eph, a.dhPublic(eph')).Some?
                        && (u.result.value.Ok? ==>
                              var q, r := u.result.value.value, v.result.value.value;
                              && q.secret == r.secret && q.transcriptHash == r.transcriptHash
                              && q.peerId == DeviceIdOf(a, a.public(you)) && r.peerId == DeviceIdOf(a, a.public(me))
                              && q.peerName == name' && r.peerName == name)))
  {
    var s := Fresh(a, me, eph, nonce, name);
    var t := OnInit(a, yours, you, eph', nonce', name', s.init, t1).1;
    OnInitHonest(a, yours, s, you, eph', nonce', name', t1);
    if Welcomes(yours, s.init, t1) {
      var u := OnResponse(a, mine, s, t.resp.value, t.respSig, t2).1;
      OnResponseHonest(a, mine, s, t, t2);
      if Welcomes(mine, t.resp.value, t2) {
        OnFinishHonest(a, t, me, u.finishSig.value);
        HexRoundTrip(a.dhPublic(eph));
        HexRoundTrip(a.dhPublic(eph'));
      }
    }
  }
}
