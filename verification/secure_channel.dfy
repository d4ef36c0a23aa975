/** The primitives the session layer calls, as functions of their inputs. What
  * is taken for granted about each is written out where it is used. */
module Primitives {
  import opened Wrappers
  import opened Bytes

  datatype Crypto = Crypto(
    // ChaCha20-Poly1305, section 2.8 of RFC 8439: key, nonce, associated data, text
    seal: (Bytes, Bytes, Bytes, Bytes) -> Bytes,
    unseal: (Bytes, Bytes, Bytes, Bytes) -> Option<Bytes>,
    // HKDF-SHA256, section 2 of RFC 5869: input key, salt, info, length
    hkdf: (Bytes, Bytes, Bytes, nat) -> Bytes)
  {
    /** Decryption inverts encryption, and a ciphertext carries a 16-byte tag. */
    ghost predicate AeadCorrect() {
      forall k, n, ad, p ::
        && unseal(k, n, ad, seal(k, n, ad, p)) == Some(p)
        && |seal(k, n, ad, p)| == |p| + 16
    }
  }
}

/** core/crypto/kdf.py: directional keys from the handshake secret. */
module Kdf {
  import opened Wrappers
  import opened Bytes
  import opened Primitives

  datatype SessionKeys = SessionKeys(sendKey: Bytes, recvKey: Bytes, sessionId: Bytes)

  datatype KdfError = BadSecret | BadSalt

  const KeyLen := 32
  const SessionIdLen := 16

  function InfoInitToResp(): Bytes { Ascii("peerc-v2:initiator-to-responder") }
  function InfoRespToInit(): Bytes { Ascii("peerc-v2:responder-to-initiator") }
  function InfoSessionId(): Bytes { Ascii("peerc-v2:session-id") }

  function DeriveSessionKeys(c: Crypto, secret: Bytes, salt: Bytes, isInitiator: bool): Result<SessionKeys, KdfError> {
    if |secret| != 32 then Err(BadSecret)
    else if |salt| != 32 then Err(BadSalt)
    else
      var i2r := c.hkdf(secret, salt, InfoInitToResp(), KeyLen);
      var r2i := c.hkdf(secret, salt, InfoRespToInit(), KeyLen);
      var id := c.hkdf(secret, salt, InfoSessionId(), SessionIdLen);
      Ok(if isInitiator then SessionKeys(i2r, r2i, id) else SessionKeys(r2i, i2r, id))
  }

  /** HKDF as used here: output of the asked length, and the two directional
    * labels, which differ, give different keys. */
  ghost predicate KdfSeparates(c: Crypto) {
    forall ikm, salt ::
      && |c.hkdf(ikm, salt, InfoInitToResp(), KeyLen)| == KeyLen
      && |c.hkdf(ikm, salt, InfoRespToInit(), KeyLen)| == KeyLen
      && c.hkdf(ikm, salt, InfoInitToResp(), KeyLen) != c.hkdf(ikm, salt, InfoRespToInit(), KeyLen)
  }

  // ---- What the keys depend on -----------------------------------------------------------------

  /** What one key is derived from. */
  datatype KeyInput = KeyInput(secret: Bytes, salt: Bytes, info: Bytes)

  function Output(c: Crypto, x: KeyInput, length: nat): Bytes { c.hkdf(x.secret, x.salt, x.info, length) }

  /** Among the inputs in use no two give one output. */
  ghost predicate NoCollision(c: Crypto, inputs: set<KeyInput>) {
    forall x, y, n :: x in inputs && y in inputs && n in {KeyLen, SessionIdLen} && Output(c, x, n) == Output(c, y, n)
                      ==> x == y
  }

  function InputsOf(secret: Bytes, salt: Bytes): set<KeyInput> {
    {KeyInput(secret, salt, InfoInitToResp()), KeyInput(secret, salt, InfoRespToInit()),
     KeyInput(secret, salt, InfoSessionId())}
  }

  lemma LabelsDiffer()
    ensures InfoInitToResp() != InfoRespToInit() && InfoInitToResp() != InfoSessionId()
    ensures InfoRespToInit() != InfoSessionId()
  {
    assert InfoInitToResp()[9] == 105 && InfoRespToInit()[9] == 114 && InfoSessionId()[9] == 115;
  }

  /** Two derivations, in any roles, give one send key exactly when secret, salt
    * and role agree, one receive key likewise, the send key of one as the receive
    * key of the other exactly when secret and salt agree and the roles differ, and
    * one session id exactly when secret and salt agree. */
  lemma KeysAgreeExactly(c: Crypto, used: set<KeyInput>, secret: Bytes, salt: Bytes, isInitiator: bool,
                         secret': Bytes, salt': Bytes, isInitiator': bool)
    requires NoCollision(c, used) && InputsOf(secret, salt) <= used && InputsOf(secret', salt') <= used
    requires |secret| == 32 && |salt| == 32 && |secret'| == 32 && |salt'| == 32
    ensures var k := DeriveSessionKeys(c, secret, salt, isInitiator);
            var k' := DeriveSessionKeys(c, secret', salt', isInitiator');
            && k.Ok? && k'.Ok?
            && var same := secret == secret' && salt == salt';
               && (k.value.sendKey == k'.value.sendKey <==> same && isInitiator == isInitiator')
               && (k.value.recvKey == k'.value.recvKey <==> same && isInitiator == isInitiator')
               && (k.value.sendKey == k'.value.recvKey <==> same && isInitiator != isInitiator')
               && (k.value.sessionId == k'.value.sessionId <==> same)
  {
    LabelsDiffer();
    SameOutput(c, used, secret, salt, secret', salt', InfoInitToResp(), InfoInitToResp(), KeyLen);
    SameOutput(c, used, secret, salt, secret', salt', InfoInitToResp(), InfoRespToInit(), KeyLen);
    SameOutput(c, used, secret, salt, secret', salt', InfoRespToInit(), InfoInitToResp(), KeyLen);
    SameOutput(c, used, secret, salt, secret', salt', InfoRespToInit(), InfoRespToInit(), KeyLen);
    SameOutput(c, used, secret, salt, secret', salt', InfoSessionId(), InfoSessionId(), SessionIdLen);
  }

  predicate NoKeyInCommon(a: SessionKeys, b: SessionKeys) {
    && a.sendKey != b.sendKey && a.sendKey != b.recvKey
    && a.recvKey != b.sendKey && a.recvKey != b.recvKey
  }

  lemma KeysApartExactly(c: Crypto, used: set<KeyInput>, secret: Bytes, salt: Bytes, isInitiator: bool,
                         secret': Bytes, salt': Bytes, isInitiator': bool)
    requires NoCollision(c, used) && InputsOf(secret, salt) <= used && InputsOf(secret', salt') <= used
    requires |secret| == 32 && |salt| == 32 && |secret'| == 32 && |salt'| == 32
    ensures var k := DeriveSessionKeys(c, secret, salt, isInitiator);
            var k' := DeriveSessionKeys(c, secret', salt', isInitiator');
            k.Ok? && k'.Ok? && (NoKeyInCommon(k.value, k'.value) <==> secret != secret' || salt != salt')
  {
    KeysAgreeExactly(c, used, secret, salt, isInitiator, secret', salt', isInitiator');
    KeysAgreeExactly(c, used, secret', salt', isInitiator', secret, salt, isInitiator);
  }

  lemma SameOutput(c: Crypto, used: set<KeyInput>, secret: Bytes, salt: Bytes, secret': Bytes, salt': Bytes,
                   info: Bytes, info': Bytes, length: nat)
    requires NoCollision(c, used) && length in {KeyLen, SessionIdLen}
    requires KeyInput(secret, salt, info) in used && KeyInput(secret', salt', info') in used
    ensures c.hkdf(secret, salt, info, length) == c.hkdf(secret', salt', info', length)
       <==> secret == secret' && salt == salt' && info == info'
  {
    var x, y := KeyInput(secret, salt, info), KeyInput(secret', salt', info');
    assert Output(c, x, length) == c.hkdf(secret, salt, info, length);
    assert Output(c, y, length) == c.hkdf(secret', salt', info', length);
  }

  /** Each end sends under the key the other receives under. */
  ghost predicate Mirrored(a: SessionKeys, b: SessionKeys) {
    && a.sendKey == b.recvKey && a.recvKey == b.sendKey && a.sessionId == b.sessionId
    && |a.sendKey| == KeyLen && |a.recvKey| == KeyLen
    && a.sendKey != a.recvKey
  }

  /** Both ends derive mirrored keys, or both are refused for the same length. */
  lemma KeysMirror(c: Crypto, secret: Bytes, salt: Bytes)
    requires KdfSeparates(c)
    ensures var a := DeriveSessionKeys(c, secret, salt, true);
            var b := DeriveSessionKeys(c, secret, salt, false);
            && (a.Ok? <==> |secret| == 32 && |salt| == 32)
            && (a.Ok? ==> b.Ok? && Mirrored(a.value, b.value) && Mirrored(b.value, a.value))
            && (a.Err? ==> a == b == Err(if |secret| != 32 then BadSecret else BadSalt))
            && (a.Ok? ==> a.value.sendKey == c.hkdf(secret, salt, Ascii("peerc-v2:initiator-to-responder"), 32))
            && (b.Ok? ==> b.value.sendKey == c.hkdf(secret, salt, Ascii("peerc-v2:responder-to-initiator"), 32))
  {}
}

/** core/crypto/encryption.py: one end of the encrypted channel. */
module SecureChannels {
  import opened Wrappers
  import opened Positional
  import opened Bytes
  import opened Primitives
  import opened Kdf

  const NonceLen := 12

  datatype EncryptionError = DecryptionFailed | ReplayOrReorder | SequenceExhausted

  datatype EncryptedFrame = EncryptedFrame(sequence: nat, ciphertext: Bytes)

  /** The value of a channel: its keys and its two counters. */
  datatype Channel = Channel(keys: SessionKeys, sendSequence: nat, expectedRecv: nat)

  function Opened(keys: SessionKeys): Channel { Channel(keys, 0, 0) }

  function ConstructNonce(sequence: nat): (r: Result<Bytes, EncryptionError>)
    ensures r.Ok? ==> |r.value| == NonceLen && FromBytes(r.value) == sequence
    ensures r.Ok? <==> sequence < Pow(256, NonceLen)
  {
    if sequence >= Pow(256, NonceLen) then Err(SequenceExhausted) else Ok(ToBytes(sequence, NonceLen))
  }

  function Encrypt(c: Crypto, ch: Channel, text: Bytes, ad: Bytes): (Channel, Result<EncryptedFrame, EncryptionError>) {
    match ConstructNonce(ch.sendSequence)
    case Err(e) => (ch, Err(e))
    case Ok(nonce) =>
      (ch.(sendSequence := ch.sendSequence + 1),
       Ok(EncryptedFrame(ch.sendSequence, c.seal(ch.keys.sendKey, nonce, ad, text))))
  }

  function Decrypt(c: Crypto, ch: Channel, sequence: nat, ciphertext: Bytes, ad: Bytes)
      : (Channel, Result<Bytes, EncryptionError>) {
    if sequence != ch.expectedRecv then (ch, Err(ReplayOrReorder)) else
    match ConstructNonce(sequence)
    case Err(e) => (ch, Err(e))
    case Ok(nonce) =>
      match c.unseal(ch.keys.recvKey, nonce, ad, ciphertext)
      case None => (ch, Err(DecryptionFailed))
      case Some(text) => (ch.(expectedRecv := ch.expectedRecv + 1), Ok(text))
  }

  /** The check made when a channel is built: both keys are 32 bytes. */
  method OpenChannel(c: Crypto, keys: SessionKeys) returns (r: Option<SecureChannel>)
    ensures r.Some? <==> |keys.sendKey| == KeyLen && |keys.recvKey| == KeyLen
    ensures r.Some? ==> fresh(r.value) && r.value.c == c && r.value.Contents() == Opened(keys)
  {
    if |keys.sendKey| != KeyLen || |keys.recvKey| != KeyLen {
      return None;
    }
    var ch := new SecureChannel(c, keys);
    return Some(ch);
  }

  class SecureChannel {
    const c: Crypto
    const keys: SessionKeys
    var sendSequence: nat
    var expectedRecv: nat

    constructor (c: Crypto, keys: SessionKeys)
      requires |keys.sendKey| == KeyLen && |keys.recvKey| == KeyLen
      ensures this.c == c && Contents() == Opened(keys)
    {
      this.c, this.keys := c, keys;
      sendSequence, expectedRecv := 0, 0;
    }

    function Contents(): Channel
      reads this
    {
      Channel(keys, sendSequence, expectedRecv)
    }

    method EncryptNext(text: Bytes, ad: Bytes) returns (r: Result<EncryptedFrame, EncryptionError>)
      modifies this
      ensures (Contents(), r) == Encrypt(c, old(Contents()), text, ad)
      ensures r.Err? ==> unchanged(this)
    {
      var nonce := ConstructNonce(sendSequence);
      if nonce.Err? {
        return Err(nonce.error);
      }
      r := Ok(EncryptedFrame(sendSequence, c.seal(keys.sendKey, nonce.value, ad, text)));
      sendSequence := sendSequence + 1;
    }

    /** A frame that is refused, for whatever reason, moves no counter. */
    method DecryptNext(sequence: nat, ciphertext: Bytes, ad: Bytes) returns (r: Result<Bytes, EncryptionError>)
      modifies this
      ensures (Contents(), r) == Decrypt(c, old(Contents()), sequence, ciphertext, ad)
      ensures r.Err? ==> unchanged(this)
    {
      if sequence != expectedRecv {
        return Err(ReplayOrReorder);
      }
      var nonce := ConstructNonce(sequence);
      if nonce.Err? {
        return Err(nonce.error);
      }
      var text := c.unseal(keys.recvKey, nonce.value, ad, ciphertext);
      if text.None? {
        return Err(DecryptionFailed);
      }
      expectedRecv := expectedRecv + 1;
      return Ok(text.value);
    }
  }
}

/** Two channel ends over a network that may drop, repeat, reorder, alter or
  * inject anything. */
module ChannelRuns {
  import opened Wrappers
  import opened Positional
  import opened Bytes
  import opened Primitives
  import opened Kdf
  import opened SecureChannels

  datatype End = Initiator | Responder {
    function Peer(): End { if this.Initiator? then Responder else Initiator }
  }

  /** One use of the cipher, as the key holder made it. */
  datatype Use = Use(key: Bytes, nonce: Bytes, ad: Bytes, text: Bytes)

  /** One end with what it encrypted and what it returned to its caller. */
  datatype Party = Party(channel: Channel, uses: seq<Use>, returned: seq<(Bytes, Bytes)>)

  datatype Link = Link(init: Party, resp: Party) {
    function At(e: End): Party { if e.Initiator? then init else resp }
    function With(e: End, p: Party): Link { if e.Initiator? then this.(init := p) else this.(resp := p) }
  }

  datatype Step =
    | Send(end: End, text: Bytes, ad: Bytes)
    | Deliver(end: End, sequence: nat, ciphertext: Bytes, ad: Bytes)

  function Start(a: SessionKeys, b: SessionKeys): Link {
    Link(Party(Opened(a), [], []), Party(Opened(b), [], []))
  }

  function Next(c: Crypto, l: Link, step: Step): Link {
    var p := l.At(step.end);
    match step
    case Send(e, text, ad) =>
      var (ch, r) := Encrypt(c, p.channel, text, ad);
      if r.Err? then l.With(e, p.(channel := ch))
      else
        var nonce := ConstructNonce(r.value.sequence);
        l.With(e, p.(channel := ch, uses := p.uses + [Use(ch.keys.sendKey, nonce.value, ad, text)]))
    case Deliver(e, sequence, ciphertext, ad) =>
      var (ch, r) := Decrypt(c, p.channel, sequence, ciphertext, ad);
      if r.Err? then l.With(e, p.(channel := ch))
      else l.With(e, p.(channel := ch, returned := p.returned + [(ad, r.value)]))
  }

  function After(c: Crypto, start: Link, steps: seq<Step>): Link {
    if steps == [] then start else Next(c, After(c, start, steps[..|steps| - 1]), steps[|steps| - 1])
  }

  /** Authenticity of the cipher, at one step: whatever the network offers is
    * refused unless its text was encrypted under that key, nonce and
    * associated data by a holder of the key. */
  ghost predicate Unforged(c: Crypto, l: Link, step: Step) {
    step.Deliver? ==>
      var key := l.At(step.end).channel.keys.recvKey;
      forall nonce, text :: |nonce| == NonceLen && c.unseal(key, nonce, step.ad, step.ciphertext) == Some(text)
        ==> exists e :: Use(key, nonce, step.ad, text) in l.At(e).uses
  }

  ghost predicate UnforgedRun(c: Crypto, start: Link, steps: seq<Step>) {
    forall i :: 0 <= i < |steps| ==> Unforged(c, After(c, start, steps[..i]), steps[i])
  }

  // ---- The invariant -------------------------------------------------------------------

  function Payload(u: Use): (Bytes, Bytes) { (u.ad, u.text) }

  /** The i-th use of one end is under its send key with nonce i. */
  ghost predicate Numbered(p: Party) {
    && |p.uses| == p.channel.sendSequence
    && forall i :: 0 <= i < |p.uses| ==>
        && p.uses[i].key == p.channel.keys.sendKey
        && |p.uses[i].nonce| == NonceLen && FromBytes(p.uses[i].nonce) == i
  }

  /** What one end returned is, in order and without gaps, what the other
    * encrypted first. */
  ghost predicate ReturnedPrefix(receiver: Party, sender: Party) {
    && |receiver.returned| == receiver.channel.expectedRecv <= |sender.uses|
    && forall i :: 0 <= i < |receiver.returned| ==> receiver.returned[i] == Payload(sender.uses[i])
  }

  ghost predicate Safe(l: Link) {
    && Mirrored(l.init.channel.keys, l.resp.channel.keys)
    && Numbered(l.init) && Numbered(l.resp)
    && ReturnedPrefix(l.init, l.resp) && ReturnedPrefix(l.resp, l.init)
  }

  lemma SendKeepsSafe(c: Crypto, l: Link, step: Step)
    requires Safe(l) && step.Send?
    ensures Safe(Next(c, l, step))
  {}

  /** A logged use under the key one end receives with was made by its peer,
    * at the place its nonce says. */
  lemma UseIsPeers(l: Link, e: End, f: End, use: Use)
    requires Safe(l) && use in l.At(f).uses && use.key == l.At(e).channel.keys.recvKey
    ensures FromBytes(use.nonce) < |l.At(e.Peer()).uses|
    ensures l.At(e.Peer()).uses[FromBytes(use.nonce)] == use
  {}

  lemma AcceptKeepsSafe(l: Link, e: End, ch: Channel, use: Use)
    requires Safe(l) && ch == l.At(e).channel.(expectedRecv := l.At(e).channel.expectedRecv + 1)
    requires l.At(e).channel.expectedRecv < |l.At(e.Peer()).uses|
    requires l.At(e.Peer()).uses[l.At(e).channel.expectedRecv] == use
    ensures Safe(l.With(e, l.At(e).(channel := ch, returned := l.At(e).returned + [Payload(use)])))
  {
    var p, q := l.At(e), l.At(e.Peer());
    var p' := p.(channel := ch, returned := p.returned + [Payload(use)]);
    assert Numbered(p') && ReturnedPrefix(p', q) && ReturnedPrefix(q, p');
  }

  lemma DeliverKeepsSafe(c: Crypto, l: Link, step: Step)
    requires Safe(l) && step.Deliver? && Unforged(c, l, step)
    ensures Safe(Next(c, l, step))
  {
    var p := l.At(step.end);
    var (ch, r) := Decrypt(c, p.channel, step.sequence, step.ciphertext, step.ad);
    if r.Ok? {
      var nonce := ConstructNonce(step.sequence).value;
      var use := Use(p.channel.keys.recvKey, nonce, step.ad, r.value);
      var f :| use in l.At(f).uses;
      UseIsPeers(l, step.end, f, use);
      AcceptKeepsSafe(l, step.end, ch, use);
    } else {
      RejectionChangesNothing(c, l, step);
    }
  }

  /** In every run over any network the returned payloads are a prefix of the
    * encrypted ones, both ways, and every cipher use is numbered. */
  lemma {:induction false} RunIsSafe(c: Crypto, a: SessionKeys, b: SessionKeys, steps: seq<Step>)
    requires Mirrored(a, b) && UnforgedRun(c, Start(a, b), steps)
    ensures Safe(After(c, Start(a, b), steps))
  {
    if steps != [] {
      var before, step := steps[..|steps| - 1], steps[|steps| - 1];
      assert forall i :: 0 <= i < |before| ==> steps[..i] == before[..i];
      RunIsSafe(c, a, b, before);
      var l := After(c, Start(a, b), before);
      if step.Send? {
        SendKeepsSafe(c, l, step);
      } else {
        DeliverKeepsSafe(c, l, step);
      }
    }
  }

  lemma StepKeepsNumbered(c: Crypto, l: Link, step: Step)
    requires Numbered(l.init) && Numbered(l.resp)
    ensures var k := Next(c, l, step);
            && Numbered(k.init) && Numbered(k.resp)
            && k.init.channel.keys == l.init.channel.keys && k.resp.channel.keys == l.resp.channel.keys
  {
    var p := l.At(step.end);
    if step.Send? {
      SendNumbers(c, p, step.text, step.ad);
    } else {
      var ch := Decrypt(c, p.channel, step.sequence, step.ciphertext, step.ad).0;
      assert ch.keys == p.channel.keys && ch.sendSequence == p.channel.sendSequence;
    }
  }

  /** One encryption adds one numbered use, or none. */
  lemma SendNumbers(c: Crypto, p: Party, text: Bytes, ad: Bytes)
    requires Numbered(p)
    ensures var (ch, r) := Encrypt(c, p.channel, text, ad);
            && ch.keys == p.channel.keys
            && if r.Err? then ch.sendSequence == p.channel.sendSequence
               else ConstructNonce(r.value.sequence).Ok?
                    && Numbered(p.(channel := ch, uses := p.uses
                         + [Use(ch.keys.sendKey, ConstructNonce(r.value.sequence).value, ad, text)]))
  {}

  lemma {:induction false} AlwaysNumbered(c: Crypto, a: SessionKeys, b: SessionKeys, steps: seq<Step>)
    ensures var l := After(c, Start(a, b), steps);
            Numbered(l.init) && Numbered(l.resp) && l.init.channel.keys == a && l.resp.channel.keys == b
  {
    if steps != [] {
      var before := steps[..|steps| - 1];
      AlwaysNumbered(c, a, b, before);
      StepKeepsNumbered(c, After(c, Start(a, b), before), steps[|steps| - 1]);
    }
  }

  /** Over both ends and the whole run no key and nonce are used twice, whatever
    * was delivered and even if a forgery was accepted. */
  lemma NoncesNeverRepeat(c: Crypto, a: SessionKeys, b: SessionKeys, steps: seq<Step>, e: End, i: nat, f: End, j: nat)
    requires Mirrored(a, b)
    requires var l := After(c, Start(a, b), steps);
             && i < |l.At(e).uses| && j < |l.At(f).uses|
             && l.At(e).uses[i].key == l.At(f).uses[j].key && l.At(e).uses[i].nonce == l.At(f).uses[j].nonce
    ensures e == f && i == j
  {
    AlwaysNumbered(c, a, b, steps);
  }

  /** A rejected frame leaves the whole system as it was. */
  lemma RejectionChangesNothing(c: Crypto, l: Link, step: Step)
    requires step.Deliver?
    requires Decrypt(c, l.At(step.end).channel, step.sequence, step.ciphertext, step.ad).1.Err?
    ensures Next(c, l, step) == l
  {}

  /** Why a frame is refused: its number is not the next, or it is not authentic
    * under that number. */
  lemma RefusedExactly(c: Crypto, ch: Channel, sequence: nat, ciphertext: Bytes, ad: Bytes)
    ensures var r := Decrypt(c, ch, sequence, ciphertext, ad).1;
            && (r == Err(ReplayOrReorder) <==> sequence != ch.expectedRecv)
            && (r == Err(SequenceExhausted) <==> sequence == ch.expectedRecv && sequence >= Pow(256, 12))
            && (sequence == ch.expectedRecv && sequence < Pow(256, 12) ==>
                  var text := c.unseal(ch.keys.recvKey, ToBytes(sequence, 12), ad, ciphertext);
                  (r == Err(DecryptionFailed) <==> text.None?) && (r.Ok? ==> text == Some(r.value)))
  {}

  /** A genuine frame that the network delivers when it is next is accepted,
    * whatever was delivered before it. */
  lemma GenuineNextIsAccepted(c: Crypto, l: Link, e: End)
    requires Safe(l) && c.AeadCorrect() && l.At(e).channel.expectedRecv < |l.At(e.Peer()).uses|
    requires l.At(e.Peer()).channel.sendSequence <= Pow(256, NonceLen)
    ensures var use := l.At(e.Peer()).uses[l.At(e).channel.expectedRecv];
            var step := Deliver(e, l.At(e).channel.expectedRecv, c.seal(use.key, use.nonce, use.ad, use.text), use.ad);
            Next(c, l, step).At(e).returned == l.At(e).returned + [Payload(use)]
  {
    var n := l.At(e).channel.expectedRecv;
    var use := l.At(e.Peer()).uses[n];
    FromBytesInjective(use.nonce, ConstructNonce(n).value);
  }
}
