/** Any number of handshake sessions of any number of honest devices, over a
  * network that chooses every message they receive. */
module HandshakeRuns {
  import opened Wrappers
  import opened Bytes
  import opened TextCodes
  import opened Hex
  import opened SignedPayloads
  import opened TrustModel
  import opened Handshakes
  import TrustRuns

  /** Which piece of code made an honest signature. */
  datatype Origin = ByResponder(i: nat) | ByInitiator(i: nat) | Elsewhere(kind: Kind)

  datatype Entry = Entry(key: Bytes, message: Bytes, origin: Origin)

  /** The honest devices, all their sessions so far, and all they signed. */
  datatype World = World(locals: map<Private, Local>, sessions: seq<Session>, log: seq<Entry>)

  datatype Step =
    | Begin(me: Private, eph: Private, nonce: Text, name: Text)
    | ReceiveInit(me: Private, eph: Private, nonce: Text, name: Text, init: Hello, now: real)
    | ReceiveResponse(i: nat, resp: Hello, sig: Text, now: real)
    | ReceiveFinish(i: nat, sig: Text)
    | Abort(i: nat)
    | SignElsewhere(me: Private, kind: Kind, body: Bytes)
    | Manage(me: Private, op: TrustRuns.Op)

  /** A random nonce no earlier session drew. */
  ghost predicate NewNonce(w: World, nonce: Text) {
    nonce != [] && Joined(nonce) && forall i :: 0 <= i < |w.sessions| ==> w.sessions[i].OwnNonce() != nonce
  }

  ghost predicate Pending(w: World, i: nat, role: Role) {
    i < |w.sessions| && w.sessions[i].role == role && w.sessions[i].result.None? && w.sessions[i].me in w.locals
  }

  /** Received messages were parsed from JSON and have the awaited type; a
    * timeout or any other message is an Abort. */
  ghost predicate Enabled(w: World, step: Step) {
    match step
    case Begin(me, _, nonce, name) => me in w.locals && NewNonce(w, nonce) && Joined(name)
    case ReceiveInit(me, _, nonce, name, init, _) =>
      me in w.locals && NewNonce(w, nonce) && Joined(name) && init.Joined() && init.kind == InitKind()
    case ReceiveResponse(i, resp, _, _) =>
      Pending(w, i, Initiator) && w.sessions[i].resp.None? && resp.Joined() && resp.kind == ResponseKind()
    case ReceiveFinish(i, _) => Pending(w, i, Responder) && w.sessions[i].Responded()
    case Abort(i) => i < |w.sessions| && w.sessions[i].result.None?
    case SignElsewhere(me, kind, _) => me in w.locals && kind in {RotationSig, EventSig}
    case Manage(me, _) => me in w.locals && w.locals[me].store.Some?
  }

  function Logged(log: seq<Entry>, key: Bytes, message: Option<Bytes>, origin: Origin): seq<Entry> {
    if message.Some? then log + [Entry(key, message.value, origin)] else log
  }

  ghost function Next(a: Asym, w: World, step: Step): World {
    if !Enabled(w, step) then w else
    match step
    case Begin(me, eph, nonce, name) => w.(sessions := w.sessions + [Fresh(a, me, eph, nonce, name)])
    case ReceiveInit(me, eph, nonce, name, init, now) =>
      var (local, s, message) := OnInit(a, w.locals[me], me, eph, nonce, name, init, now);
      World(w.locals[me := local], w.sessions + [s], Logged(w.log, a.public(me), message, ByResponder(|w.sessions|)))
    case ReceiveResponse(i, resp, sig, now) =>
      var me := w.sessions[i].me;
      var (local, s, message) := OnResponse(a, w.locals[me], w.sessions[i], resp, sig, now);
      World(w.locals[me := local], w.sessions[i := s], Logged(w.log, a.public(me), message, ByInitiator(i)))
    case ReceiveFinish(i, sig) => w.(sessions := w.sessions[i := OnFinish(a, w.sessions[i], sig)])
    case Abort(i) => w.(sessions := w.sessions[i := w.sessions[i].(result := Some(Err(Aborted)))])
    case SignElsewhere(me, kind, body) => w.(log := w.log + [Entry(a.public(me), Domain(kind) + body, Elsewhere(kind))])
    case Manage(me, op) =>
      w.(locals := w.locals[me := w.locals[me].(store := Some(TrustRuns.Apply(w.locals[me].store.value, op)))])
  }

  ghost function After(a: Asym, w: World, steps: seq<Step>): World {
    if steps == [] then w else Next(a, After(a, w, steps[..|steps| - 1]), steps[|steps| - 1])
  }

  // ---- Unforgeable signatures -------------------------------------------------------------------

  ghost predicate Honest(a: Asym, w: World, key: Bytes) {
    exists me :: me in w.locals && a.public(me) == key
  }

  ghost predicate InLog(w: World, key: Bytes, message: Bytes) {
    exists k :: 0 <= k < |w.log| && w.log[k].key == key && w.log[k].message == message
  }

  /** The key, signature and message a step asks the cipher suite to verify. */
  ghost predicate Claims(w: World, step: Step, key: Bytes, sig: Text, message: Bytes) {
    match step
    case ReceiveResponse(i, resp, s, _) =>
      i < |w.sessions| && FromHex(resp.publicKey) == Some(key) && sig == s
        && message == ResponderTranscript(w.sessions[i].init, resp)
    case ReceiveFinish(i, s) =>
      i < |w.sessions| && w.sessions[i].Responded() && FromHex(w.sessions[i].init.publicKey) == Some(key)
      && sig == s && message == w.sessions[i].InitTranscript()
    case _ => false
  }

  /** A signature verifies under an honest key only if its owner made it. */
  ghost predicate Unforged(a: Asym, w: World, step: Step) {
    forall key, sig, message ::
      Claims(w, step, key, sig, message) && Honest(a, w, key) && Verifies(a, key, sig, message) ==>
        InLog(w, key, message)
  }

  ghost predicate UnforgedRun(a: Asym, w: World, steps: seq<Step>) {
    forall i :: 0 <= i < |steps| ==> Unforged(a, After(a, w, steps[..i]), steps[i])
  }

  // ---- The invariant ------------------------------------------------------------------------------

  ghost predicate EntryOk(a: Asym, w: World, e: Entry) {
    match e.origin
    case ByResponder(i) =>
      && i < |w.sessions| && w.sessions[i].role.Responder? && w.sessions[i].Responded()
      && a.public(w.sessions[i].me) == e.key && e.message == w.sessions[i].RespTranscript()
    case ByInitiator(i) =>
      && i < |w.sessions| && w.sessions[i].role.Initiator? && w.sessions[i].Responded()
      && a.public(w.sessions[i].me) == e.key && e.message == w.sessions[i].InitTranscript()
    case Elsewhere(kind) => kind in {RotationSig, EventSig} && Domain(kind) <= e.message
  }

  /** t is a responder session of the key's owner on the very fields of s. */
  ghost predicate AnsweredBy(a: Asym, s: Session, t: Session, key: Bytes) {
    t.role.Responder? && a.public(t.me) == key && t.init == s.init && t.resp == s.resp
  }

  /** t is an initiator session of the key's owner that signed the very fields
    * and the very response signature of s. */
  ghost predicate StartedBy(a: Asym, s: Session, t: Session, key: Bytes) {
    t.role.Initiator? && a.public(t.me) == key && t.init == s.init && t.resp == s.resp && t.respSig == s.respSig
  }

  ghost predicate OwnFieldsOk(a: Asym, s: Session) {
    && s.init.Joined()
    && (s.resp.Some? ==> s.resp.value.Joined() && IsAscii(s.respSig))
    && (s.resp.Some? ==> VerifyIdentity(a, PeerHello(s).deviceId, PeerHello(s).publicKey).Some?)
    && (s.role.Initiator? ==> s.init == MyHello(a, InitKind(), s.me, s.eph, s.init.nonce, s.init.senderName))
    && (s.role.Initiator? && s.resp.Some? ==> s.finishSig.Some?)
    && (s.role.Responder? && s.resp.Some? ==>
          s.resp.value == MyHello(a, ResponseKind(), s.me, s.eph, s.resp.value.nonce, s.resp.value.senderName))
    && (s.finishSig.Some? ==> s.resp.Some? && IsAscii(s.finishSig.value))
    && (s.result.Some? && s.result.value.Ok? ==>
          && s.finishSig.Some?
          && s.result.value == Finish(a, PeerHello(s), s.eph, s.InitTranscript(), s.finishSig.value, s.decision))
  }

  function PeerHello(s: Session): Hello requires s.resp.Some? { if s.role.Initiator? then s.resp.value else s.init }

  ghost predicate PartnerOk(a: Asym, w: World, s: Session) {
    s.finishSig.Some? && s.resp.Some? ==>
      var key := FromHex(PeerHello(s).publicKey);
      && key.Some?
      && (Honest(a, w, key.value) ==>
            exists j :: 0 <= j < |w.sessions| &&
              if s.role.Initiator? then AnsweredBy(a, s, w.sessions[j], key.value)
              else StartedBy(a, s, w.sessions[j], key.value))
  }

  ghost predicate NoncesDiffer(w: World) {
    forall i, j :: 0 <= i < j < |w.sessions| && w.sessions[i].OwnNonce() != [] ==>
      w.sessions[i].OwnNonce() != w.sessions[j].OwnNonce()
  }

  ghost predicate Inv(a: Asym, w: World) {
    && (forall k :: 0 <= k < |w.log| ==> EntryOk(a, w, w.log[k]))
    && (forall i :: 0 <= i < |w.sessions| ==> OwnFieldsOk(a, w.sessions[i]) && PartnerOk(a, w, w.sessions[i]))
    && NoncesDiffer(w)
  }

  // ---- Sessions only gain information ------------------------------------------------------------

  ghost predicate Frozen(s: Session, t: Session) {
    && t.role == s.role && t.me == s.me && t.eph == s.eph && t.init == s.init
    && (s.resp.Some? ==> t.resp == s.resp && t.respSig == s.respSig)
    && t.OwnNonce() == s.OwnNonce()
  }

  ghost predicate Grows(w: World, v: World) {
    && w.locals.Keys == v.locals.Keys
    && |w.sessions| <= |v.sessions|
    && forall i :: 0 <= i < |w.sessions| ==> Frozen(w.sessions[i], v.sessions[i])
  }

  lemma HandlersFreeze(a: Asym, local: Local, s: Session, resp: Hello, sig: Text, now: real)
    ensures s.role.Initiator? && s.resp.None? ==> Frozen(s, OnResponse(a, local, s, resp, sig, now).1)
    ensures s.resp.Some? && IsAscii(s.respSig) ==> Frozen(s, OnFinish(a, s, sig))
  {}

  lemma StepGrows(a: Asym, w: World, step: Step)
    ensures Grows(w, Next(a, w, step))
  {
    if Enabled(w, step) {
      match step {
        case ReceiveResponse(i, resp, sig, now) =>
          HandlersFreeze(a, w.locals[w.sessions[i].me], w.sessions[i], resp, sig, now);
        case ReceiveFinish(i, sig) =>
          HandlersFreeze(a, w.locals[w.sessions[i].me], w.sessions[i], w.sessions[i].init, sig, 0.0);
        case _ =>
      }
    }
  }

  lemma EntryGrows(a: Asym, w: World, v: World, e: Entry)
    requires Grows(w, v) && EntryOk(a, w, e)
    ensures EntryOk(a, v, e)
  {}

  lemma PartnerGrows(a: Asym, w: World, v: World, s: Session)
    requires Grows(w, v) && PartnerOk(a, w, s)
    ensures PartnerOk(a, v, s)
  {}

  // ---- The two authentication steps ----------------------------------------------------------------

  function OriginKind(o: Origin): Kind {
    match o case ByResponder(_) => ResponderSig case ByInitiator(_) => InitiatorSig case Elsewhere(k) => k
  }

  lemma EntryHasDomain(a: Asym, w: World, e: Entry)
    requires EntryOk(a, w, e)
    ensures Domain(OriginKind(e.origin)) <= e.message
  {}

  /** The domain at its front tells what kind of code signed a message. */
  lemma KindFromDomain(j: Kind, k: Kind, message: Bytes)
    requires Domain(j) <= message && Domain(k) <= message
    ensures j == k
  {
    var a, b := message[|Domain(j)|..], message[|Domain(k)|..];
    assert message == Domain(j) + a && message == Domain(k) + b;
    if j != k { DomainsDisjoint(j, k, a, b); }
  }

  lemma LoggedByKind(a: Asym, w: World, key: Bytes, message: Bytes, kind: Kind) returns (e: Entry)
    requires Inv(a, w) && InLog(w, key, message) && Domain(kind) <= message
    ensures EntryOk(a, w, e) && e.key == key && e.message == message && OriginKind(e.origin) == kind
  {
    var k :| 0 <= k < |w.log| && w.log[k].key == key && w.log[k].message == message;
    e := w.log[k];
    EntryHasDomain(a, w, e);
    KindFromDomain(OriginKind(e.origin), kind, message);
  }

  /** An honest signature on a responder transcript was made by a responder
    * session on exactly those fields. */
  lemma ResponderSigned(a: Asym, w: World, key: Bytes, init: Hello, resp: Hello) returns (j: nat)
    requires Inv(a, w) && InLog(w, key, ResponderTranscript(init, resp)) && init.Joined() && resp.Joined()
    ensures j < |w.sessions| && w.sessions[j].role.Responder? && a.public(w.sessions[j].me) == key
    ensures w.sessions[j].init == init && w.sessions[j].resp == Some(resp)
  {
    var e := LoggedByKind(a, w, key, ResponderTranscript(init, resp), ResponderSig);
    match e.origin {
      case ByResponder(i) =>
        j := i;
        assert OwnFieldsOk(a, w.sessions[i]);
        ResponderTranscriptInjective(w.sessions[i].init, w.sessions[i].resp.value, init, resp);
      case Elsewhere(_) =>
        assert false;
    }
  }

  /** An honest signature on an initiator transcript was made by an initiator
    * session on exactly those fields and that response signature. */
  lemma InitiatorSigned(a: Asym, w: World, key: Bytes, init: Hello, resp: Hello, sig: Text) returns (j: nat)
    requires Inv(a, w) && init.Joined() && resp.Joined() && IsAscii(sig)
    requires InLog(w, key, InitiatorTranscript(ResponderTranscript(init, resp), sig))
    ensures j < |w.sessions| && w.sessions[j].role.Initiator? && a.public(w.sessions[j].me) == key
    ensures w.sessions[j].init == init && w.sessions[j].resp == Some(resp) && w.sessions[j].respSig == sig
  {
    var e := LoggedByKind(a, w, key, InitiatorTranscript(ResponderTranscript(init, resp), sig), InitiatorSig);
    match e.origin {
      case ByInitiator(i) =>
        j := i;
        var s := w.sessions[i];
        assert OwnFieldsOk(a, s);
        InitiatorTranscriptInjective(s.init, s.resp.value, s.respSig, init, resp, sig);
      case Elsewhere(_) =>
        assert false;
    }
  }

  // ---- Every step keeps the invariant -----------------------------------------------------------------

  /** What is left to show once a step has changed or added session i and
    * logged at most one more message. */
  lemma KeepsInv(a: Asym, w: World, v: World, i: nat)
    requires Inv(a, w) && Grows(w, v) && i < |v.sessions| <= |w.sessions| + 1
    requires |v.sessions| > |w.sessions| ==> i == |w.sessions|
    requires forall j :: 0 <= j < |w.sessions| && j != i ==> v.sessions[j] == w.sessions[j]
    requires OwnFieldsOk(a, v.sessions[i]) && PartnerOk(a, v, v.sessions[i])
    requires |w.log| <= |v.log| <= |w.log| + 1 && v.log[..|w.log|] == w.log
    requires |w.log| < |v.log| ==> EntryOk(a, v, v.log[|w.log|])
    requires NoncesDiffer(v)
    ensures Inv(a, v)
  {
    forall k | 0 <= k < |v.log| ensures EntryOk(a, v, v.log[k]) {
      if k < |w.log| {
        assert v.log[k] == w.log[k];
        EntryGrows(a, w, v, w.log[k]);
      }
    }
    forall j | 0 <= j < |v.sessions| ensures OwnFieldsOk(a, v.sessions[j]) && PartnerOk(a, v, v.sessions[j]) {
      if j != i { PartnerGrows(a, w, v, w.sessions[j]); }
    }
  }

  lemma NoncesStay(w: World, v: World)
    requires NoncesDiffer(w) && Grows(w, v) && |v.sessions| == |w.sessions|
    ensures NoncesDiffer(v)
  {}

  lemma NoncesExtend(w: World, v: World)
    requires NoncesDiffer(w) && |v.sessions| == |w.sessions| + 1 && v.sessions[..|w.sessions|] == w.sessions
    requires var s := v.sessions[|w.sessions|]; s.OwnNonce() == [] || NewNonce(w, s.OwnNonce())
    ensures NoncesDiffer(v)
  {}

  lemma MyHelloJoined(a: Asym, kind: Text, me: Private, eph: Private, nonce: Text, name: Text)
    requires IsAscii(kind) && Joined(nonce) && Joined(name)
    ensures MyHello(a, kind, me, eph, nonce, name).Joined()
  {}

  lemma BeginKeeps(a: Asym, w: World, step: Step)
    requires Inv(a, w) && step.Begin? && Enabled(w, step)
    ensures Inv(a, Next(a, w, step))
  {
    var v, i := Next(a, w, step), |w.sessions|;
    MyHelloJoined(a, InitKind(), step.me, step.eph, step.nonce, step.name);
    StepGrows(a, w, step);
    NoncesExtend(w, v);
    KeepsInv(a, w, v, i);
  }

  lemma ReceiveInitKeeps(a: Asym, w: World, step: Step)
    requires Inv(a, w) && step.ReceiveInit? && Enabled(w, step)
    ensures Inv(a, Next(a, w, step))
  {
    var v, i := Next(a, w, step), |w.sessions|;
    MyHelloJoined(a, ResponseKind(), step.me, step.eph, step.nonce, step.name);
    StepGrows(a, w, step);
    NoncesExtend(w, v);
    KeepsInv(a, w, v, i);
  }

  lemma ResponsePartner(a: Asym, w: World, step: Step)
    requires Inv(a, w) && step.ReceiveResponse? && Enabled(w, step) && Unforged(a, w, step)
    ensures PartnerOk(a, Next(a, w, step), Next(a, w, step).sessions[step.i])
  {
    var v, s := Next(a, w, step), w.sessions[step.i];
    var t := v.sessions[step.i];
    StepGrows(a, w, step);
    if t.resp.Some? {
      var key := FromHex(step.resp.publicKey).value;
      if Honest(a, v, key) {
        assert Honest(a, w, key);
        assert Claims(w, step, key, step.sig, ResponderTranscript(s.init, step.resp));
        var j := ResponderSigned(a, w, key, s.init, step.resp);
        assert AnsweredBy(a, t, v.sessions[j], key) by { assert Frozen(w.sessions[j], v.sessions[j]); }
      }
    }
  }

  lemma ReceiveResponseKeeps(a: Asym, w: World, step: Step)
    requires Inv(a, w) && step.ReceiveResponse? && Enabled(w, step) && Unforged(a, w, step)
    ensures Inv(a, Next(a, w, step))
  {
    var v := Next(a, w, step);
    StepGrows(a, w, step);
    NoncesStay(w, v);
    ResponsePartner(a, w, step);
    assert OwnFieldsOk(a, w.sessions[step.i]);
    KeepsInv(a, w, v, step.i);
  }

  lemma ReceiveFinishKeeps(a: Asym, w: World, step: Step)
    requires Inv(a, w) && step.ReceiveFinish? && Enabled(w, step) && Unforged(a, w, step)
    ensures Inv(a, Next(a, w, step))
  {
    var v, i := Next(a, w, step), step.i;
    var s, t := w.sessions[i], v.sessions[i];
    assert OwnFieldsOk(a, s) && PartnerOk(a, w, s);
    StepGrows(a, w, step);
    NoncesStay(w, v);
    if t.finishSig.Some? && s.finishSig.None? {
      var key := FromHex(s.init.publicKey).value;
      if Honest(a, v, key) {
        assert Honest(a, w, key);
        assert Claims(w, step, key, step.sig, s.InitTranscript());
        var j := InitiatorSigned(a, w, key, s.init, s.resp.value, s.respSig);
        assert StartedBy(a, t, v.sessions[j], key) by { assert Frozen(w.sessions[j], v.sessions[j]); }
      }
    } else {
      PartnerGrows(a, w, v, s);
    }
    KeepsInv(a, w, v, i);
  }

  lemma AbortKeeps(a: Asym, w: World, step: Step)
    requires Inv(a, w) && step.Abort? && Enabled(w, step)
    ensures Inv(a, Next(a, w, step))
  {
    var v := Next(a, w, step);
    assert OwnFieldsOk(a, w.sessions[step.i]) && PartnerOk(a, w, w.sessions[step.i]);
    StepGrows(a, w, step);
    NoncesStay(w, v);
    PartnerGrows(a, w, v, w.sessions[step.i]);
    KeepsInv(a, w, v, step.i);
  }

  lemma OtherKeeps(a: Asym, w: World, step: Step)
    requires Inv(a, w) && (step.SignElsewhere? || step.Manage?) && Enabled(w, step)
    ensures Inv(a, Next(a, w, step))
  {
    var v := Next(a, w, step);
    StepGrows(a, w, step);
    NoncesStay(w, v);
    forall k | 0 <= k < |v.log| ensures EntryOk(a, v, v.log[k]) {
      if k < |w.log| { EntryGrows(a, w, v, w.log[k]); }
    }
    forall j | 0 <= j < |v.sessions| ensures OwnFieldsOk(a, v.sessions[j]) && PartnerOk(a, v, v.sessions[j]) {
      PartnerGrows(a, w, v, w.sessions[j]);
    }
  }

  lemma StepKeeps(a: Asym, w: World, step: Step)
    requires Inv(a, w) && Unforged(a, w, step)
    ensures Inv(a, Next(a, w, step))
  {
    if Enabled(w, step) {
      match step {
        case Begin(_, _, _, _) => BeginKeeps(a, w, step);
        case ReceiveInit(_, _, _, _, _, _) => ReceiveInitKeeps(a, w, step);
        case ReceiveResponse(_, _, _, _) => ReceiveResponseKeeps(a, w, step);
        case ReceiveFinish(_, _) => ReceiveFinishKeeps(a, w, step);
        case Abort(_) => AbortKeeps(a, w, step);
        case SignElsewhere(_, _, _) => OtherKeeps(a, w, step);
        case Manage(_, _) => OtherKeeps(a, w, step);
      }
    }
  }

  lemma {:induction false} RunKeeps(a: Asym, locals: map<Private, Local>, steps: seq<Step>)
    requires UnforgedRun(a, World(locals, [], []), steps)
    ensures Inv(a, After(a, World(locals, [], []), steps))
    ensures After(a, World(locals, [], []), steps).locals.Keys == locals.Keys
  {
    if steps != [] {
      var before := steps[..|steps| - 1];
      assert forall i :: 0 <= i < |before| ==> steps[..i] == before[..i];
      RunKeeps(a, locals, before);
      StepGrows(a, After(a, World(locals, [], []), before), steps[|steps| - 1]);
      StepKeeps(a, After(a, World(locals, [], []), before), steps[|steps| - 1]);
    }
  }

  // ---- Agreement -----------------------------------------------------------------------------------------

  ghost predicate Completed(w: World, i: nat, r: HandshakeResult) {
    i < |w.sessions| && w.sessions[i].result == Some(Ok(r))
  }

  /** Both sides of one handshake compute one secret, from either ephemeral. */
  lemma OneSecret(a: Asym, s: Session, t: Session)
    requires a.Sound() && OwnFieldsOk(a, s) && OwnFieldsOk(a, t)
    requires s.role.Initiator? && t.role.Responder? && s.init == t.init && s.resp == t.resp && s.resp.Some?
    ensures SharedSecret(a, s.eph, s.resp.value.ephemeralKey) == SharedSecret(a, t.eph, t.init.ephemeralKey)
  {
    HexRoundTrip(a.dhPublic(s.eph));
    HexRoundTrip(a.dhPublic(t.eph));
  }

  /** When an initiator completes against an honest key, a responder session of
    * that key's owner sent the response it accepted, on the same twelve
    * fields, and computes the same secret. */
  lemma InitiatorAgreement(a: Asym, locals: map<Private, Local>, steps: seq<Step>, i: nat, r: HandshakeResult,
                           key: Bytes) returns (j: nat)
    requires a.Sound() && UnforgedRun(a, World(locals, [], []), steps)
    requires var w := After(a, World(locals, [], []), steps);
             Completed(w, i, r) && w.sessions[i].role.Initiator? && FromHex(r.peerKey) == Some(key) && Honest(a, w, key)
    ensures var w := After(a, World(locals, [], []), steps);
            && r.peerId == DeviceIdOf(a, key)
            && j < |w.sessions| && AnsweredBy(a, w.sessions[i], w.sessions[j], key)
            && SharedSecret(a, w.sessions[j].eph, w.sessions[j].init.ephemeralKey) == Some(r.secret)
  {
    var w := After(a, World(locals, [], []), steps);
    RunKeeps(a, locals, steps);
    var s := w.sessions[i];
    assert OwnFieldsOk(a, s) && PartnerOk(a, w, s);
    j :| 0 <= j < |w.sessions| && AnsweredBy(a, s, w.sessions[j], key);
    OneSecret(a, s, w.sessions[j]);
  }

  /** When a responder completes against an honest key, an initiator session of
    * that key's owner signed the same twelve fields and the very response
    * signature this responder made, and both have one secret. If the finish
    * message arrived as it was sent, both have one transcript hash. */
  lemma ResponderAgreement(a: Asym, locals: map<Private, Local>, steps: seq<Step>, i: nat, r: HandshakeResult,
                           key: Bytes) returns (j: nat)
    requires a.Sound() && UnforgedRun(a, World(locals, [], []), steps)
    requires var w := After(a, World(locals, [], []), steps);
             Completed(w, i, r) && w.sessions[i].role.Responder? && FromHex(r.peerKey) == Some(key) && Honest(a, w, key)
    ensures var w := After(a, World(locals, [], []), steps);
            && r.peerId == DeviceIdOf(a, key)
            && j < |w.sessions| && StartedBy(a, w.sessions[i], w.sessions[j], key) && w.sessions[j].resp.Some?
            && SharedSecret(a, w.sessions[j].eph, w.sessions[j].resp.value.ephemeralKey) == Some(r.secret)
            && forall q :: Completed(w, j, q) ==>
                 && q.secret == r.secret
                 && (w.sessions[i].finishSig == w.sessions[j].finishSig ==> q.transcriptHash == r.transcriptHash)
  {
    var w := After(a, World(locals, [], []), steps);
    RunKeeps(a, locals, steps);
    var s := w.sessions[i];
    assert OwnFieldsOk(a, s) && PartnerOk(a, w, s);
    j :| 0 <= j < |w.sessions| && StartedBy(a, s, w.sessions[j], key);
    assert OwnFieldsOk(a, w.sessions[j]);
    OneSecret(a, w.sessions[j], s);
  }

  /** Agreement is one to one: a session that fixed its response has at most
    * one partner, because every session draws its own nonce. */
  lemma PartnerIsUnique(a: Asym, locals: map<Private, Local>, steps: seq<Step>, i: nat, j: nat, k: nat, key: Bytes)
    requires UnforgedRun(a, World(locals, [], []), steps)
    requires var w := After(a, World(locals, [], []), steps);
             && i < |w.sessions| && j < |w.sessions| && k < |w.sessions| && w.sessions[i].resp.Some?
             && w.sessions[i].init.nonce != [] && w.sessions[i].resp.value.nonce != []
             && var s, t, u := w.sessions[i], w.sessions[j], w.sessions[k];
                (AnsweredBy(a, s, t, key) && AnsweredBy(a, s, u, key))
                  || (StartedBy(a, s, t, key) && StartedBy(a, s, u, key))
    ensures j == k
  {
    var w := After(a, World(locals, [], []), steps);
    RunKeeps(a, locals, steps);
    assert w.sessions[j].OwnNonce() == w.sessions[k].OwnNonce() != [];
  }

  // ---- Revocation reaches every later handshake ------------------------------------------------------------

  ghost predicate RevokedAt(w: World, me: Private, id: Text) {
    me in w.locals && w.locals[me].store.Some? && HasStatus(w.locals[me].store.value, id, TrustStatus.Revoked)
  }

  /** Exactly whom the gate lets through, with which decision, and that it only
    * ever adds a pending row or moves a last-seen time. */
  lemma GateExtends(store: Option<Store>, id: Text, key: Text, name: Text, now: real)
    ensures var (after, d) := TrustGate(store, id, key, name, now);
            && after.Some? == store.Some?
            && (store.None? ==> d == Ok(TrustDecision.Unknown))
            && (store.Some? ==>
                  var s, t := store.value, after.value;
                  && TrustRuns.Extends(s, t) && t.transitions == s.transitions
                  && (forall k :: k in s.devices ==> t.devices[k].status == s.devices[k].status)
                  && (forall k :: k in t.devices && k != id ==> k in s.devices && t.devices[k] == s.devices[k])
                  && (d.Ok? <==> (id in s.devices ==> s.devices[id].publicKey == key && !s.devices[id].status.Revoked?))
                  && (d.Ok? && id !in s.devices ==>
                        id in t.devices && t.devices[id] == Device(key, name, now, now, TrustStatus.Pending, None))
                  && (d.Ok? ==> id in t.devices && t.devices[id].publicKey == key && t.devices[id].lastSeen == now
                                && d.value == (if t.devices[id].status.Trusted? then TrustDecision.Trusted
                                               else TrustDecision.Pending))
                  && (d.Err? ==> t == s && d.error == (if s.devices[id].publicKey != key then DeviceKeyChanged
                                                       else DeviceRevoked)))
  {}

  /** The sessions of one device whose check of a given peer has passed. */
  ghost predicate Passed(w: World, me: Private, id: Text, i: nat) {
    && i < |w.sessions| && w.sessions[i].me == me && w.sessions[i].resp.Some?
    && PeerHello(w.sessions[i]).deviceId == id
  }

  lemma CheckRefusesRevoked(a: Asym, local: Local, h: Hello, now: real, id: Text)
    requires local.store.Some? && HasStatus(local.store.value, id, TrustStatus.Revoked)
    ensures var (after, r) := CheckPeer(a, local, h, now);
            && after.store.Some? && HasStatus(after.store.value, id, TrustStatus.Revoked)
            && (h.deviceId == id ==> r.Err?)
  {}

  lemma RevokedInit(a: Asym, w: World, step: Step, me: Private, id: Text)
    requires RevokedAt(w, me, id) && Enabled(w, step) && step.ReceiveInit?
    ensures RevokedAt(Next(a, w, step), me, id)
    ensures forall i :: Passed(Next(a, w, step), me, id, i) ==> Passed(w, me, id, i)
  {
    CheckRefusesRevoked(a, w.locals[me], step.init, step.now, id);
  }

  lemma RevokedResponse(a: Asym, w: World, step: Step, me: Private, id: Text)
    requires RevokedAt(w, me, id) && Enabled(w, step) && step.ReceiveResponse?
    ensures RevokedAt(Next(a, w, step), me, id)
    ensures forall i :: Passed(Next(a, w, step), me, id, i) ==> Passed(w, me, id, i)
  {
    CheckRefusesRevoked(a, w.locals[me], step.resp, step.now, id);
  }

  lemma RevokedStep(a: Asym, w: World, step: Step, me: Private, id: Text)
    requires RevokedAt(w, me, id)
    ensures RevokedAt(Next(a, w, step), me, id)
    ensures forall i :: Passed(Next(a, w, step), me, id, i) ==> Passed(w, me, id, i)
  {
    if Enabled(w, step) {
      if step.ReceiveInit? {
        RevokedInit(a, w, step, me, id);
      } else if step.ReceiveResponse? {
        RevokedResponse(a, w, step, me, id);
      } else if step.Manage? {
        TrustRuns.StepExtends(w.locals[step.me].store.value, step.op);
      }
    }
  }

  /** Once a device is revoked in a store, no handshake of the store's owner
    * ever again gets past the check of that device: every session that has,
    * had already done so before. */
  lemma {:induction false} RevokedStaysOut(a: Asym, w: World, steps: seq<Step>, me: Private, id: Text)
    requires RevokedAt(w, me, id)
    ensures RevokedAt(After(a, w, steps), me, id)
    ensures forall i :: Passed(After(a, w, steps), me, id, i) ==> Passed(w, me, id, i)
  {
    if steps != [] {
      RevokedStaysOut(a, w, steps[..|steps| - 1], me, id);
      RevokedStep(a, After(a, w, steps[..|steps| - 1]), steps[|steps| - 1], me, id);
    }
  }
}

/** The whole path from handshake to delivered payloads. */
module SecureSessions {
  import opened Wrappers
  import opened Bytes
  import opened Hex
  import opened Handshakes
  import opened HandshakeRuns
  import opened Primitives
  import opened Kdf
  import ChannelRuns

  /** The two keys of one handshake. */
  function KeysOf(c: Crypto, r: HandshakeResult, isInitiator: bool): Result<SessionKeys, KdfError> {
    DeriveSessionKeys(c, r.secret, r.transcriptHash, isInitiator)
  }

  lemma FinishLengths(a: Asym, s: Session, r: HandshakeResult)
    requires a.Sound() && OwnFieldsOk(a, s) && s.result == Some(Ok(r))
    ensures |r.secret| == 32 && |r.transcriptHash| == 32
  {
    var p := FromHex(PeerHello(s).ephemeralKey);
    assert Some(r.secret) == a.dh(s.eph, p.value);
  }

  lemma ResultLengths(a: Asym, w: World, i: nat, r: HandshakeResult)
    requires a.Sound() && Inv(a, w) && Completed(w, i, r)
    ensures |r.secret| == 32 && |r.transcriptHash| == 32
  {
    FinishLengths(a, w.sessions[i], r);
  }

  /** The inputs of the key derivations of all completed handshakes. */
  ghost predicate Covers(used: set<KeyInput>, w: World) {
    forall i, r :: Completed(w, i, r) ==> InputsOf(r.secret, r.transcriptHash) <= used
  }

  /** In every run two completed handshakes share a key, in either direction,
    * exactly when they have one secret and one transcript hash: so handshakes
    * with different secrets share none. */
  lemma SessionsKeepApart(a: Asym, c: Crypto, used: set<KeyInput>, locals: map<Private, Local>, steps: seq<Step>,
                          i: nat, q: HandshakeResult, j: nat, r: HandshakeResult)
    requires a.Sound() && UnforgedRun(a, World(locals, [], []), steps) && NoCollision(c, used)
    requires var w := After(a, World(locals, [], []), steps);
             Covers(used, w) && Completed(w, i, q) && Completed(w, j, r)
    ensures var w := After(a, World(locals, [], []), steps);
            var mine := KeysOf(c, q, w.sessions[i].role.Initiator?);
            var theirs := KeysOf(c, r, w.sessions[j].role.Initiator?);
            && mine.Ok? && theirs.Ok?
            && (NoKeyInCommon(mine.value, theirs.value) <==>
                  q.secret != r.secret || q.transcriptHash != r.transcriptHash)
  {
    var w := After(a, World(locals, [], []), steps);
    RunKeeps(a, locals, steps);
    ResultLengths(a, w, i, q);
    ResultLengths(a, w, j, r);
    KeysApartExactly(c, used, q.secret, q.transcriptHash, w.sessions[i].role.Initiator?,
      r.secret, r.transcriptHash, w.sessions[j].role.Initiator?);
  }

  /** In every run of any number of handshakes and over any network: a
    * responder that completes against an honest key, and the initiator it
    * agrees with, derive mirrored keys when the finish message arrived as
    * sent; and then, whatever the network does to the channel, each returns
    * exactly a prefix of what the other encrypted. */
  lemma SessionIsSecure(a: Asym, c: Crypto, locals: map<Private, Local>, steps: seq<Step>, i: nat, r: HandshakeResult,
                        key: Bytes)
      returns (j: nat)
    requires a.Sound() && KdfSeparates(c) && UnforgedRun(a, World(locals, [], []), steps)
    requires var w := After(a, World(locals, [], []), steps);
             Completed(w, i, r) && w.sessions[i].role.Responder? && FromHex(r.peerKey) == Some(key) && Honest(a, w, key)
    ensures var w := After(a, World(locals, [], []), steps);
            j < |w.sessions| && StartedBy(a, w.sessions[i], w.sessions[j], key)
    ensures var w := After(a, World(locals, [], []), steps);
            forall q :: Completed(w, j, q) && w.sessions[i].finishSig == w.sessions[j].finishSig ==>
              var mine, theirs := KeysOf(c, q, true), KeysOf(c, r, false);
              && mine.Ok? && theirs.Ok? && Mirrored(mine.value, theirs.value)
              && forall moves :: ChannelRuns.UnforgedRun(c, ChannelRuns.Start(mine.value, theirs.value), moves) ==>
                   ChannelRuns.Safe(ChannelRuns.After(c, ChannelRuns.Start(mine.value, theirs.value), moves))
  {
    var w := After(a, World(locals, [], []), steps);
    j := ResponderAgreement(a, locals, steps, i, r, key);
    RunKeeps(a, locals, steps);
    ResultLengths(a, w, i, r);
    forall q | Completed(w, j, q) && w.sessions[i].finishSig == w.sessions[j].finishSig
      ensures var mine, theirs := KeysOf(c, q, true), KeysOf(c, r, false);
              && mine.Ok? && theirs.Ok? && Mirrored(mine.value, theirs.value)
              && forall moves :: ChannelRuns.UnforgedRun(c, ChannelRuns.Start(mine.value, theirs.value), moves) ==>
                   ChannelRuns.Safe(ChannelRuns.After(c, ChannelRuns.Start(mine.value, theirs.value), moves))
    {
      KeysMirror(c, r.secret, r.transcriptHash);
      var mine, theirs := KeysOf(c, q, true).value, KeysOf(c, r, false).value;
      forall moves | ChannelRuns.UnforgedRun(c, ChannelRuns.Start(mine, theirs), moves)
        ensures ChannelRuns.Safe(ChannelRuns.After(c, ChannelRuns.Start(mine, theirs), moves))
      {
        ChannelRuns.RunIsSafe(c, mine, theirs, moves);
      }
    }
  }
}
