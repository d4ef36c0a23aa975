/** Replay protection over whole runs of core/crypto/handshake.py, and a run
  * that shows the hypotheses of the agreement theorems can be met. */
module HandshakeWorlds {
  import opened Wrappers
  import opened Bytes
  import opened TextCodes
  import opened Hex
  import opened SignedPayloads
  import opened Handshakes
  import opened HandshakeRuns

  // ---- No nonce is accepted twice within the window ------------------------------------------------------

  /** A step in which device me checks the claims h of its peer. */
  ghost predicate Checks(w: World, step: HandshakeRuns.Step, me: Private, h: Hello) {
    && Enabled(w, step)
    && match step
       case ReceiveInit(m, _, _, _, init, _) => m == me && init == h
       case ReceiveResponse(i, resp, _, _) => w.sessions[i].me == me && resp == h
       case _ => false
  }

  /** The nonce was not refused as a replay, whatever was said of the rest. */
  ghost predicate Admits(a: Asym, w: World, step: HandshakeRuns.Step, me: Private, h: Hello) {
    Checks(w, step, me, h) && me in w.locals && CheckPeer(a, w.locals[me], h, step.now).1 != Err(Replay)
  }

  predicate Timed(step: HandshakeRuns.Step) { step.ReceiveInit? || step.ReceiveResponse? }

  /** The clock does not run backwards. */
  ghost predicate ClockAdvances(steps: seq<HandshakeRuns.Step>) {
    forall i, j :: 0 <= i < j < |steps| && Timed(steps[i]) && Timed(steps[j]) ==> steps[i].now <= steps[j].now
  }

  ghost predicate Holds(local: Local, nonce: Text, t: real, ttl: real) {
    local.ttl == ttl && nonce in local.seen && local.seen[nonce] == t
  }

  /** Device me remembers a nonce from time t. */
  ghost predicate Remembers(w: World, me: Private, nonce: Text, t: real, ttl: real) {
    me in w.locals && Holds(w.locals[me], nonce, t, ttl)
  }

  lemma CheckHolds(a: Asym, local: Local, h: Hello, now: real, nonce: Text, t: real, ttl: real)
    requires Holds(local, nonce, t, ttl) && now - t <= ttl
    ensures Holds(CheckPeer(a, local, h, now).0, nonce, t, ttl)
  {}

  /** The peer's claims that a step brings. */
  function Brought(step: HandshakeRuns.Step): Hello
    requires Timed(step)
  {
    if step.ReceiveInit? then step.init else step.resp
  }

  /** What such a step leaves of the state of device me. */
  lemma LocalAfter(a: Asym, w: World, step: HandshakeRuns.Step, me: Private)
    requires Enabled(w, step) && me in w.locals && Timed(step)
    ensures me in Next(a, w, step).locals
    ensures Next(a, w, step).locals[me]
         == if Checks(w, step, me, Brought(step)) then CheckPeer(a, w.locals[me], Brought(step), step.now).0
            else w.locals[me]
  {}

  lemma TimedRemembers(a: Asym, w: World, step: HandshakeRuns.Step, me: Private, nonce: Text, t: real, ttl: real)
    requires Enabled(w, step) && Timed(step) && Remembers(w, me, nonce, t, ttl) && step.now - t <= ttl
    ensures Remembers(Next(a, w, step), me, nonce, t, ttl)
  {
    LocalAfter(a, w, step, me);
    CheckHolds(a, w.locals[me], Brought(step), step.now, nonce, t, ttl);
  }

  lemma RememberedStep(a: Asym, w: World, step: HandshakeRuns.Step, me: Private, nonce: Text, t: real, ttl: real)
    requires Remembers(w, me, nonce, t, ttl) && (Timed(step) ==> step.now - t <= ttl)
    ensures Remembers(Next(a, w, step), me, nonce, t, ttl)
  {
    if Enabled(w, step) && Timed(step) { TimedRemembers(a, w, step, me, nonce, t, ttl); }
  }

  lemma AdmittedRemembers(a: Asym, w: World, step: HandshakeRuns.Step, me: Private, h: Hello)
    requires Admits(a, w, step, me, h)
    ensures Remembers(Next(a, w, step), me, h.nonce, step.now, w.locals[me].ttl)
  {}

  lemma RememberedFails(a: Asym, w: World, step: HandshakeRuns.Step, me: Private, h: Hello, t: real, ttl: real)
    requires Remembers(w, me, h.nonce, t, ttl) && Checks(w, step, me, h) && step.now - t <= ttl
    ensures !Admits(a, w, step, me, h)
  {}

  lemma {:induction false} RememberedUntil(a: Asym, w: World, steps: seq<HandshakeRuns.Step>, i: nat, k: nat,
                                           me: Private, nonce: Text, t: real, ttl: real)
    requires i <= k <= |steps| && Remembers(After(a, w, steps[..i]), me, nonce, t, ttl)
    requires forall n :: i <= n < k && Timed(steps[n]) ==> steps[n].now - t <= ttl
    ensures Remembers(After(a, w, steps[..k]), me, nonce, t, ttl)
  {
    if i < k {
      RememberedUntil(a, w, steps, i, k - 1, me, nonce, t, ttl);
      assert steps[..k][..k - 1] == steps[..k - 1];
      RememberedStep(a, After(a, w, steps[..k - 1]), steps[k - 1], me, nonce, t, ttl);
    }
  }

  lemma {:induction false} TtlIsFixed(a: Asym, w: World, steps: seq<HandshakeRuns.Step>, me: Private)
    requires me in w.locals
    ensures me in After(a, w, steps).locals && After(a, w, steps).locals[me].ttl == w.locals[me].ttl
  {
    if steps != [] { TtlIsFixed(a, w, steps[..|steps| - 1], me); }
  }

  /** In every run, two sessions of one device that were not refused as a replay on
    * the same peer nonce checked it more than the window apart, whether or not
    * they accepted the peer. */
  lemma SameNonceFarApart(a: Asym, w: World, steps: seq<HandshakeRuns.Step>, i: nat, j: nat, me: Private, h: Hello,
                          g: Hello)
    requires ClockAdvances(steps) && i < j < |steps| && me in w.locals && h.nonce == g.nonce
    requires Admits(a, After(a, w, steps[..i]), steps[i], me, h) && Admits(a, After(a, w, steps[..j]), steps[j], me, g)
    ensures steps[j].now - steps[i].now > w.locals[me].ttl
  {
    var ttl, t := w.locals[me].ttl, steps[i].now;
    if steps[j].now - t <= ttl {
      TtlIsFixed(a, w, steps[..i], me);
      AdmittedRemembers(a, After(a, w, steps[..i]), steps[i], me, h);
      assert steps[..i + 1][..i] == steps[..i];
      RememberedUntil(a, w, steps, i + 1, j, me, h.nonce, t, ttl);
      RememberedFails(a, After(a, w, steps[..j]), steps[j], me, g, t, ttl);
    }
  }

  // ---- An honest run ---------------------------------------------------------------------------------------

  /** Two devices, each with an empty cache and no store. */
  function TwoDevices(me: Private, you: Private, ttl: real): map<Private, Local> {
    map[me := Local(map[], ttl, None), you := Local(map[], ttl, None)]
  }

  datatype Exchange = Exchange(me: Private, eph: Private, nonce: Text, name: Text,
                               you: Private, eph': Private, nonce': Text, name': Text, now: real)
  {
    ghost predicate Valid(a: Asym) {
      && me != you && nonce != nonce' && nonce != [] && nonce' != []
      && Joined(nonce) && Joined(nonce') && Joined(name) && Joined(name')
      && a.dh(eph, a.dhPublic(eph')).Some?
    }
  }

  /** Nobody knows the peer: its nonce is new and there is no store to refuse it. */
  lemma EmptyWelcomes(ttl: real, h: Hello, now: real)
    ensures Welcomes(Local(map[], ttl, None), h, now)
  {
    assert NonceCaches.Unexpired(map[], ttl, now) == map[];
  }

  /** The sessions of an undisturbed exchange: the initiator before and after the
    * response, the responder before and after the finish. */
  datatype Stages = Stages(s: Session, t: Session, u: Session, v: Session)

  ghost predicate StagesOf(a: Asym, x: Exchange, ttl: real, g: Stages) {
    var local := Local(map[], ttl, None);
    && g.s == Fresh(a, x.me, x.eph, x.nonce, x.name)
    && g.t == OnInit(a, local, x.you, x.eph', x.nonce', x.name', g.s.init, x.now).1
    && g.t.resp == Some(MyHello(a, ResponseKind(), x.you, x.eph', x.nonce', x.name')) && IsAscii(g.t.respSig)
    && g.t.init == g.s.init && g.t.role.Responder? && g.t.me == x.you && g.t.result.None?
    && g.u == OnResponse(a, local, g.s, g.t.resp.value, g.t.respSig, x.now).1
    && g.u.finishSig.Some? && g.u.role.Initiator? && g.u.me == x.me && g.u.result.Some? && g.u.result.value.Ok?
    && g.v == OnFinish(a, g.t, g.u.finishSig.value)
    && g.v.role.Responder? && g.v.result.Some? && g.v.result.value.Ok?
    && g.u.result.value.value.secret == g.v.result.value.value.secret
    && g.u.result.value.value.transcriptHash == g.v.result.value.value.transcriptHash
  }

  lemma StagesComplete(a: Asym, x: Exchange, ttl: real) returns (g: Stages)
    requires a.Sound() && x.Valid(a)
    ensures StagesOf(a, x, ttl, g)
  {
    var local := Local(map[], ttl, None);
    var s := Fresh(a, x.me, x.eph, x.nonce, x.name);
    EmptyWelcomes(ttl, s.init, x.now);
    UndisturbedCompletes(a, local, local, x.me, x.eph, x.nonce, x.name, x.you, x.eph', x.nonce', x.name', x.now, x.now);
    var t := OnInit(a, local, x.you, x.eph', x.nonce', x.name', s.init, x.now).1;
    EmptyWelcomes(ttl, t.resp.value, x.now);
    var u := OnResponse(a, local, s, t.resp.value, t.respSig, x.now).1;
    g := Stages(s, t, u, OnFinish(a, t, u.finishSig.value));
  }

  /** What the responder and the initiator sign in it. */
  function Signed(a: Asym, x: Exchange, g: Stages): seq<Entry>
    requires g.t.resp.Some? && IsAscii(g.t.respSig)
  {
    [Entry(a.public(x.you), g.t.RespTranscript(), ByResponder(1)),
     Entry(a.public(x.me), g.t.InitTranscript(), ByInitiator(0))]
  }

  function Steps(x: Exchange, g: Stages): seq<HandshakeRuns.Step>
    requires g.t.resp.Some? && g.u.finishSig.Some?
  {
    [Begin(x.me, x.eph, x.nonce, x.name), ReceiveInit(x.you, x.eph', x.nonce', x.name', g.s.init, x.now),
     ReceiveResponse(0, g.t.resp.value, g.t.respSig, x.now), ReceiveFinish(1, g.u.finishSig.value)]
  }

  lemma BeginWorld(a: Asym, x: Exchange, ttl: real, g: Stages)
    requires x.Valid(a) && StagesOf(a, x, ttl, g)
    ensures Next(a, World(TwoDevices(x.me, x.you, ttl), [], []), Steps(x, g)[0])
      == World(TwoDevices(x.me, x.you, ttl), [g.s], [])
  {
    assert [] + [g.s] == [g.s];
  }

  lemma InitMessage(a: Asym, x: Exchange, ttl: real, g: Stages)
    requires StagesOf(a, x, ttl, g)
    ensures OnInit(a, Local(map[], ttl, None), x.you, x.eph', x.nonce', x.name', g.s.init, x.now).2
         == Some(g.t.RespTranscript())
  {}

  lemma ResponseMessage(a: Asym, x: Exchange, ttl: real, g: Stages)
    requires StagesOf(a, x, ttl, g)
    ensures OnResponse(a, Local(map[], ttl, None), g.s, g.t.resp.value, g.t.respSig, x.now).2
         == Some(g.t.InitTranscript())
  {}

  lemma InitEnabled(a: Asym, x: Exchange, ttl: real, s: Session)
    requires x.Valid(a) && s == Fresh(a, x.me, x.eph, x.nonce, x.name)
    ensures Enabled(World(TwoDevices(x.me, x.you, ttl), [s], []),
                    ReceiveInit(x.you, x.eph', x.nonce', x.name', s.init, x.now))
  {
    MyHelloJoined(a, InitKind(), x.me, x.eph, x.nonce, x.name);
    assert NewNonce(World(TwoDevices(x.me, x.you, ttl), [s], []), x.nonce');
  }

  lemma InitWorld(a: Asym, x: Exchange, ttl: real, g: Stages) returns (w: World)
    requires x.Valid(a) && StagesOf(a, x, ttl, g)
    ensures w == Next(a, World(TwoDevices(x.me, x.you, ttl), [g.s], []), Steps(x, g)[1])
    ensures w.sessions == [g.s, g.t] && w.log == Signed(a, x, g)[..1] && w.locals.Keys == {x.me, x.you}
    ensures x.me in w.locals && w.locals[x.me] == Local(map[], ttl, None)
  {
    InitEnabled(a, x, ttl, g.s);
    InitMessage(a, x, ttl, g);
    w := Next(a, World(TwoDevices(x.me, x.you, ttl), [g.s], []), Steps(x, g)[1]);
    assert [g.s] + [g.t] == [g.s, g.t];
    assert [] + [Signed(a, x, g)[0]] == Signed(a, x, g)[..1];
  }

  lemma ResponseEnabled(a: Asym, x: Exchange, w: World, s: Session, resp: Hello, sig: Text)
    requires x.Valid(a) && s == Fresh(a, x.me, x.eph, x.nonce, x.name) && x.me in w.locals
    requires |w.sessions| > 0 && w.sessions[0] == s
    requires resp == MyHello(a, ResponseKind(), x.you, x.eph', x.nonce', x.name')
    ensures Enabled(w, ReceiveResponse(0, resp, sig, x.now))
  {
    MyHelloJoined(a, ResponseKind(), x.you, x.eph', x.nonce', x.name');
  }

  lemma ResponseUnforged(a: Asym, x: Exchange, ttl: real, g: Stages, w: World)
    requires StagesOf(a, x, ttl, g) && w.sessions == [g.s, g.t] && w.log == Signed(a, x, g)[..1]
    ensures Unforged(a, w, Steps(x, g)[2])
  {
    HexRoundTrip(a.public(x.you));
    assert w.log[0] == Signed(a, x, g)[0];
    assert InLog(w, a.public(x.you), ResponderTranscript(g.s.init, g.t.resp.value));
  }

  lemma ResponseEffect(a: Asym, w: World, s: Session, t: Session, u: Session, resp: Hello, sig: Text, now: real,
                       message: Bytes)
    requires w.sessions == [s, t] && s.me in w.locals && Enabled(w, ReceiveResponse(0, resp, sig, now))
    requires OnResponse(a, w.locals[s.me], s, resp, sig, now).1 == u
    requires OnResponse(a, w.locals[s.me], s, resp, sig, now).2 == Some(message)
    ensures var w' := Next(a, w, ReceiveResponse(0, resp, sig, now));
            && w'.sessions == [u, t] && w'.log == w.log + [Entry(a.public(s.me), message, ByInitiator(0))]
            && w'.locals.Keys == w.locals.Keys
  {
    assert w.sessions[0 := u] == [u, t];
  }

  lemma ResponseWorld(a: Asym, x: Exchange, ttl: real, g: Stages, w: World) returns (w': World)
    requires x.Valid(a) && StagesOf(a, x, ttl, g)
    requires w.sessions == [g.s, g.t] && w.log == Signed(a, x, g)[..1]
    requires x.me in w.locals && w.locals[x.me] == Local(map[], ttl, None)
    ensures w' == Next(a, w, Steps(x, g)[2]) && w'.sessions == [g.u, g.t] && w'.log == Signed(a, x, g)
    ensures w'.locals.Keys == w.locals.Keys
  {
    ResponseEnabled(a, x, w, g.s, g.t.resp.value, g.t.respSig);
    ResponseMessage(a, x, ttl, g);
    ResponseEffect(a, w, g.s, g.t, g.u, g.t.resp.value, g.t.respSig, x.now, g.t.InitTranscript());
    w' := Next(a, w, Steps(x, g)[2]);
    assert Signed(a, x, g)[..1] + [Signed(a, x, g)[1]] == Signed(a, x, g);
  }

  lemma FinishUnforged(a: Asym, x: Exchange, w: World, t: Session, sig: Text)
    requires |w.sessions| == 2 && w.sessions[1] == t && t.Responded() && t.init.publicKey == ToHex(a.public(x.me))
    requires |w.log| == 2 && w.log[1].key == a.public(x.me) && w.log[1].message == t.InitTranscript()
    ensures Unforged(a, w, ReceiveFinish(1, sig))
  {
    HexRoundTrip(a.public(x.me));
    assert InLog(w, a.public(x.me), t.InitTranscript());
  }

  lemma FinishEffect(a: Asym, w: World, u: Session, t: Session, v: Session, sig: Text)
    requires w.sessions == [u, t] && t.Responded() && OnFinish(a, t, sig) == v
    requires Enabled(w, ReceiveFinish(1, sig))
    ensures Next(a, w, ReceiveFinish(1, sig)) == w.(sessions := [u, v])
  {
    assert w.sessions[1 := v] == [u, v];
  }

  lemma FinishWorld(a: Asym, x: Exchange, ttl: real, g: Stages, w: World)
    requires StagesOf(a, x, ttl, g) && x.you in w.locals
    requires w.sessions == [g.u, g.t] && w.log == Signed(a, x, g)
    ensures Next(a, w, Steps(x, g)[3]) == w.(sessions := [g.u, g.v]) && Unforged(a, w, Steps(x, g)[3])
  {
    FinishUnforged(a, x, w, g.t, g.u.finishSig.value);
    FinishEffect(a, w, g.u, g.t, g.v, g.u.finishSig.value);
  }

  /** The hypotheses of the agreement theorems can be met: an exchange whose
    * messages arrive as sent is a run without forgeries, and both sides complete
    * in it with one secret and one transcript hash. */
  lemma HonestRunCompletes(a: Asym, x: Exchange, ttl: real)
      returns (steps: seq<HandshakeRuns.Step>, q: HandshakeResult, r: HandshakeResult)
    requires a.Sound() && x.Valid(a)
    ensures var w := World(TwoDevices(x.me, x.you, ttl), [], []);
            && UnforgedRun(a, w, steps)
            && Completed(After(a, w, steps), 0, q) && After(a, w, steps).sessions[0].role.Initiator?
            && Completed(After(a, w, steps), 1, r) && After(a, w, steps).sessions[1].role.Responder?
    ensures q.secret == r.secret && q.transcriptHash == r.transcriptHash
  {
    var g := StagesComplete(a, x, ttl);
    steps := Steps(x, g);
    var w0 := World(TwoDevices(x.me, x.you, ttl), [], []);
    var w1 := World(TwoDevices(x.me, x.you, ttl), [g.s], []);
    BeginWorld(a, x, ttl, g);
    var w2 := InitWorld(a, x, ttl, g);
    ResponseUnforged(a, x, ttl, g, w2);
    var w3 := ResponseWorld(a, x, ttl, g, w2);
    FinishWorld(a, x, ttl, g, w3);
    FourSteps(a, w0, steps, w1, w2, w3);
    q, r := g.u.result.value.value, g.v.result.value.value;
  }

  lemma FourSteps(a: Asym, w0: World, steps: seq<HandshakeRuns.Step>, w1: World, w2: World, w3: World)
    requires |steps| == 4 && steps[0].Begin? && steps[1].ReceiveInit?
    requires w1 == Next(a, w0, steps[0]) && w2 == Next(a, w1, steps[1]) && w3 == Next(a, w2, steps[2])
    requires Unforged(a, w2, steps[2]) && Unforged(a, w3, steps[3])
    ensures After(a, w0, steps) == Next(a, w3, steps[3]) && UnforgedRun(a, w0, steps)
  {
    assert steps[..0] == [] && steps[..4] == steps;
    AfterOneMore(a, w0, steps, 0);
    AfterOneMore(a, w0, steps, 1);
    AfterOneMore(a, w0, steps, 2);
    AfterOneMore(a, w0, steps, 3);
    NothingToForge(a, w0, steps[0]);
    NothingToForge(a, w1, steps[1]);
    forall i | 0 <= i < 4 ensures Unforged(a, After(a, w0, steps[..i]), steps[i]) {
      assert After(a, w0, steps[..i]) == if i == 0 then w0 else if i == 1 then w1 else if i == 2 then w2 else w3;
    }
  }

  lemma NothingToForge(a: Asym, w: World, step: HandshakeRuns.Step)
    requires step.Begin? || step.ReceiveInit?
    ensures Unforged(a, w, step)
  {}

  lemma AfterOneMore(a: Asym, w: World, steps: seq<HandshakeRuns.Step>, n: nat)
    requires n < |steps|
    ensures After(a, w, steps[..n + 1]) == Next(a, After(a, w, steps[..n]), steps[n])
  {
    assert steps[..n + 1][..n] == steps[..n];
  }
}
