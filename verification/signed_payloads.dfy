/** The byte strings a device key signs: the two handshake transcripts of
  * core/crypto/handshake.py, the rotation payload of core/identity/rotation.py
  * and the event payload of core/security/events.py. Each can be read back in
  * only one way, and none can be taken for another. */
module SignedPayloads {
  import opened Wrappers
  import opened Bytes
  import opened TextCodes

  // ---- Canonical JSON of a handshake message -----------------------------------------

  /** The six signed fields of a handshake_init or handshake_response. */
  datatype Hello = Hello(kind: Text, deviceId: Text, publicKey: Text, ephemeralKey: Text,
                         nonce: Text, senderName: Text)
  {
    /** In sorted key order, as json.dumps(sort_keys=True) writes them. */
    function Fields(): (r: seq<Text>)
      ensures |r| == 6
    {
      [deviceId, ephemeralKey, nonce, publicKey, senderName, kind]
    }

    ghost predicate Joined() {
      forall i :: 0 <= i < 6 ==> TextCodes.Joined(Fields()[i])
    }
  }

  function Labels(): (r: seq<Bytes>)
    ensures |r| == 6
  {
    [Ascii("{\"device_id\":\""), Ascii(",\"ephemeral_key\":\""), Ascii(",\"nonce\":\""),
     Ascii(",\"public_key\":\""), Ascii(",\"sender_name\":\""), Ascii(",\"type\":\"")]
  }

  function Members(labels: seq<Bytes>, values: seq<Text>): Bytes
    requires |labels| == |values|
  {
    if labels == [] then []
    else labels[0] + (Escaped(values[0]) + ([Quote] + Members(labels[1..], values[1..])))
  }

  function CanonicalJson(h: Hello): Bytes {
    Members(Labels(), h.Fields()) + Ascii("}")
  }

  ghost predicate SameUnits(a: seq<Text>, b: seq<Text>) {
    |a| == |b| && forall i :: 0 <= i < |a| ==> Utf16(a[i]) == Utf16(b[i])
  }

  lemma SameUnitsStep(a: seq<Text>, b: seq<Text>)
    requires |a| == |b| > 0
    ensures SameUnits(a, b) <==> Utf16(a[0]) == Utf16(b[0]) && SameUnits(a[1..], b[1..])
  {}

  /** One member of the object, and what follows it. */
  function Member(name: Bytes, value: Text, rest: Bytes): Bytes { name + (Escaped(value) + ([Quote] + rest)) }

  lemma MembersStep(labels: seq<Bytes>, a: seq<Text>, rest: Bytes)
    requires |labels| == |a| > 0
    ensures Members(labels, a) + rest == Member(labels[0], a[0], Members(labels[1..], a[1..]) + rest)
  {
    var tail := Members(labels[1..], a[1..]);
    Reassociate([Quote], tail, rest);
    Reassociate(Escaped(a[0]), [Quote] + tail, rest);
    Reassociate(labels[0], Escaped(a[0]) + ([Quote] + tail), rest);
  }

  lemma Reassociate(a: Bytes, b: Bytes, c: Bytes)
    ensures (a + b) + c == a + (b + c)
  {}

  lemma MemberUnique(name: Bytes, x: Text, y: Text, ra: Bytes, rb: Bytes)
    ensures Member(name, x, ra) == Member(name, y, rb) <==> Utf16(x) == Utf16(y) && ra == rb
  {
    var a, b := Escaped(x) + ([Quote] + ra), Escaped(y) + ([Quote] + rb);
    if name + a == name + b { CancelPrefix(name, a, b); }
    EscapedUnique(x, y, ra, rb);
  }

  lemma {:induction false} MembersUnique(labels: seq<Bytes>, a: seq<Text>, b: seq<Text>, ra: Bytes, rb: Bytes)
    requires |labels| == |a| == |b|
    ensures Members(labels, a) + ra == Members(labels, b) + rb <==> SameUnits(a, b) && ra == rb
    decreases |labels|
  {
    if labels == [] {
      assert Members(labels, a) + ra == ra && Members(labels, b) + rb == rb;
    } else {
      MembersStep(labels, a, ra);
      MembersStep(labels, b, rb);
      MemberUnique(labels[0], a[0], b[0], Members(labels[1..], a[1..]) + ra, Members(labels[1..], b[1..]) + rb);
      MembersUnique(labels[1..], a[1..], b[1..], ra, rb);
      SameUnitsStep(a, b);
    }
  }

  ghost predicate SameWire(h: Hello, g: Hello) { SameUnits(h.Fields(), g.Fields()) }

  lemma JoinedWire(h: Hello, g: Hello)
    requires h.Joined() && g.Joined() && SameWire(h, g)
    ensures h == g
  {
    forall i | 0 <= i < 6 ensures h.Fields()[i] == g.Fields()[i] {
      Utf16Injective(h.Fields()[i], g.Fields()[i]);
    }
    assert h.Fields()[0] == g.Fields()[0] && h.Fields()[1] == g.Fields()[1] && h.Fields()[2] == g.Fields()[2];
    assert h.Fields()[3] == g.Fields()[3] && h.Fields()[4] == g.Fields()[4] && h.Fields()[5] == g.Fields()[5];
  }

  lemma CanonicalJsonUnique(h: Hello, g: Hello, ra: Bytes, rb: Bytes)
    ensures CanonicalJson(h) + ra == CanonicalJson(g) + rb <==> SameWire(h, g) && ra == rb
  {
    var close := Ascii("}");
    assert CanonicalJson(h) + ra == Members(Labels(), h.Fields()) + (close + ra);
    assert CanonicalJson(g) + rb == Members(Labels(), g.Fields()) + (close + rb);
    MembersUnique(Labels(), h.Fields(), g.Fields(), close + ra, close + rb);
    if close + ra == close + rb { CancelPrefix(close, ra, rb); }
  }

  // ---- Handshake transcripts --------------------------------------------------------

  const Newline: Bytes := [10]

  function ResponderDomain(): Bytes { Ascii("peerc-v2-handshake-responder") + Newline }
  function InitiatorDomain(): Bytes { Ascii("peerc-v2-handshake-initiator") + Newline }

  function ResponderTranscript(init: Hello, resp: Hello): Bytes {
    ResponderDomain() + (CanonicalJson(init) + (Newline + CanonicalJson(resp)))
  }

  /** The signature goes in as the hex text that was received. */
  function InitiatorTranscript(transcript: Bytes, signature: Bytes): Bytes {
    InitiatorDomain() + (transcript + (Newline + signature))
  }

  /** A responder transcript, alone or with more bytes behind it, determines
    * the twelve fields up to UTF-16 and what follows. */
  lemma ResponderTranscriptUnique(i: Hello, r: Hello, i': Hello, r': Hello, t: Bytes, t': Bytes)
    ensures ResponderTranscript(i, r) + t == ResponderTranscript(i', r') + t'
       <==> SameWire(i, i') && SameWire(r, r') && t == t'
  {
    var inner, inner' := Newline + (CanonicalJson(r) + t), Newline + (CanonicalJson(r') + t');
    var outer, outer' := CanonicalJson(i) + inner, CanonicalJson(i') + inner';
    assert ResponderTranscript(i, r) + t == ResponderDomain() + outer;
    assert ResponderTranscript(i', r') + t' == ResponderDomain() + outer';
    if ResponderDomain() + outer == ResponderDomain() + outer' { CancelPrefix(ResponderDomain(), outer, outer'); }
    CanonicalJsonUnique(i, i', inner, inner');
    if inner == inner' { CancelPrefix(Newline, CanonicalJson(r) + t, CanonicalJson(r') + t'); }
    CanonicalJsonUnique(r, r', t, t');
  }

  /** Over parsed messages a responder transcript determines its twelve fields. */
  lemma ResponderTranscriptInjective(i: Hello, r: Hello, i': Hello, r': Hello)
    requires i.Joined() && r.Joined() && i'.Joined() && r'.Joined()
    requires ResponderTranscript(i, r) == ResponderTranscript(i', r')
    ensures i == i' && r == r'
  {
    assert ResponderTranscript(i, r) + [] == ResponderTranscript(i, r);
    assert ResponderTranscript(i', r') + [] == ResponderTranscript(i', r');
    ResponderTranscriptUnique(i, r, i', r', [], []);
    JoinedWire(i, i');
    JoinedWire(r, r');
  }

  lemma InitiatorTranscriptInjective(i: Hello, r: Hello, s: Bytes, i': Hello, r': Hello, s': Bytes)
    requires i.Joined() && r.Joined() && i'.Joined() && r'.Joined()
    requires InitiatorTranscript(ResponderTranscript(i, r), s) == InitiatorTranscript(ResponderTranscript(i', r'), s')
    ensures i == i' && r == r' && s == s'
  {
    var t, t' := Newline + s, Newline + s';
    CancelPrefix(InitiatorDomain(), ResponderTranscript(i, r) + t, ResponderTranscript(i', r') + t');
    ResponderTranscriptUnique(i, r, i', r', t, t');
    CancelPrefix(Newline, s, s');
    JoinedWire(i, i');
    JoinedWire(r, r');
  }

  /** What the transcript hash is taken of. */
  function FinalTranscript(transcript: Bytes, signature: Bytes): Bytes { transcript + (Newline + signature) }

  ghost predicate NewlineFree(b: Bytes) { forall i :: 0 <= i < |b| ==> b[i] != 10 }

  /** A byte that does not occur behind it separates in only one way. */
  lemma LastSeparator(sep: Byte, a: Bytes, x: Bytes, b: Bytes, y: Bytes)
    requires a + ([sep] + x) == b + ([sep] + y)
    requires forall i :: 0 <= i < |x| ==> x[i] != sep
    requires forall i :: 0 <= i < |y| ==> y[i] != sep
    ensures a == b && x == y
  {
    var s, t := a + ([sep] + x), b + ([sep] + y);
    assert s[|a|] == sep && t[|b|] == sep;
    assert s[..|a|] == a && t[..|b|] == b;
    assert s[|a| + 1..] == x && t[|b| + 1..] == y;
  }

  /** The hashed string determines the twelve fields and the two signatures put
    * together, and the signatures themselves when the finish signature has no
    * newline in it. */
  lemma FinalTranscriptExactly(i: Hello, r: Hello, s: Bytes, f: Bytes, i': Hello, r': Hello, s': Bytes, f': Bytes)
    requires i.Joined() && r.Joined() && i'.Joined() && r'.Joined()
    ensures FinalTranscript(InitiatorTranscript(ResponderTranscript(i, r), s), f)
         == FinalTranscript(InitiatorTranscript(ResponderTranscript(i', r'), s'), f')
       <==> i == i' && r == r' && s + (Newline + f) == s' + (Newline + f')
    ensures s + (Newline + f) == s' + (Newline + f') && NewlineFree(f) && NewlineFree(f') ==> s == s' && f == f'
  {
    var t, t' := s + (Newline + f), s' + (Newline + f');
    var hashed := FinalTranscript(InitiatorTranscript(ResponderTranscript(i, r), s), f);
    var hashed' := FinalTranscript(InitiatorTranscript(ResponderTranscript(i', r'), s'), f');
    assert hashed == InitiatorTranscript(ResponderTranscript(i, r), t);
    assert hashed' == InitiatorTranscript(ResponderTranscript(i', r'), t');
    if hashed == hashed' { InitiatorTranscriptInjective(i, r, t, i', r', t'); }
    if t == t' && NewlineFree(f) && NewlineFree(f') { LastSeparator(10, s, f, s', f'); }
  }

  /** With a newline moved from the end of one signature text to the front of the
    * other, the hashed string is the same. */
  lemma SplitSignaturesCollide(transcript: Bytes, s: Bytes, f: Bytes)
    ensures FinalTranscript(InitiatorTranscript(transcript, s + Newline), f)
         == FinalTranscript(InitiatorTranscript(transcript, s), Newline + f)
  {
    assert FinalTranscript(InitiatorTranscript(transcript, s + Newline), f)
        == InitiatorDomain() + (transcript + (Newline + (s + (Newline + (Newline + f)))));
    assert FinalTranscript(InitiatorTranscript(transcript, s), Newline + f)
        == InitiatorDomain() + (transcript + (Newline + (s + (Newline + (Newline + f)))));
  }

  // ---- Rotation payload ------------------------------------------------------------

  /** timestamp is the big-endian image of the IEEE 754 double. */
  datatype RotationClaim = RotationClaim(oldId: Text, newId: Text, oldKey: Text, newKey: Text, timestamp: Bytes)
  {
    function Fields(): (r: seq<Text>)
      ensures |r| == 4
    {
      [oldId, newId, oldKey, newKey]
    }

    ghost predicate Valid() {
      NulFree(oldId) && NulFree(newId) && NulFree(oldKey) && NulFree(newKey) && |timestamp| == 8
    }
  }

  function RotationDomain(): Bytes { Ascii("peerc-key-rotation") + [0] }

  function NulJoined(fields: seq<Text>, tail: Bytes): Bytes {
    if fields == [] then tail else Utf8(fields[0]) + ([0] + NulJoined(fields[1..], tail))
  }

  function RotationPayload(c: RotationClaim): Bytes {
    RotationDomain() + NulJoined(c.Fields(), c.timestamp)
  }

  lemma {:induction false} NulJoinedUnique(a: seq<Text>, b: seq<Text>, ta: Bytes, tb: Bytes)
    requires |a| == |b| && (forall i :: 0 <= i < |a| ==> NulFree(a[i]) && NulFree(b[i]))
    ensures NulJoined(a, ta) == NulJoined(b, tb) <==> a == b && ta == tb
    decreases |a|
  {
    if a != [] {
      Utf8Terminated(a[0], b[0], NulJoined(a[1..], ta), NulJoined(b[1..], tb));
      NulJoinedUnique(a[1..], b[1..], ta, tb);
      assert a == [a[0]] + a[1..] && b == [b[0]] + b[1..];
    }
  }

  /** The fields with the separators between them, as text. */
  function NulText(fields: seq<Text>): Text {
    if fields == [] then [] else fields[0] + ([0] + NulText(fields[1..]))
  }

  lemma {:induction false} Utf8Concat(a: Text, b: Text)
    ensures Utf8(a + b) == Utf8(a) + Utf8(b)
  {
    if a == [] {
      assert a + b == b;
    } else {
      assert (a + b)[1..] == a[1..] + b;
      Utf8Concat(a[1..], b);
    }
  }

  lemma {:induction false} NulJoinedIsText(fields: seq<Text>, tail: Bytes)
    ensures NulJoined(fields, tail) == Utf8(NulText(fields)) + tail
  {
    if fields != [] {
      NulJoinedIsText(fields[1..], tail);
      Utf8Concat(fields[0], [0] + NulText(fields[1..]));
      Utf8Concat([0], NulText(fields[1..]));
      assert Utf8([0]) == [0] by { assert Utf8([]) == []; }
    }
  }

  /** Rotation payloads agree exactly when the time stamps do and the four text
    * fields read the same with NULs between them. */
  lemma RotationPayloadExactly(c: RotationClaim, d: RotationClaim)
    requires |c.timestamp| == 8 && |d.timestamp| == 8
    ensures RotationPayload(c) == RotationPayload(d)
       <==> c.timestamp == d.timestamp && NulText(c.Fields()) == NulText(d.Fields())
  {
    NulJoinedIsText(c.Fields(), c.timestamp);
    NulJoinedIsText(d.Fields(), d.timestamp);
    var x, y := Utf8(NulText(c.Fields())), Utf8(NulText(d.Fields()));
    if RotationPayload(c) == RotationPayload(d) {
      CancelPrefix(RotationDomain(), x + c.timestamp, y + d.timestamp);
      assert |x| == |y|;
      assert (x + c.timestamp)[..|x|] == x && (y + d.timestamp)[..|y|] == y;
      CancelPrefix(x, c.timestamp, d.timestamp);
      Utf8Injective(NulText(c.Fields()), NulText(d.Fields()));
    }
  }

  function Nuls(t: Text): nat {
    if t == [] then 0 else (if t[0] == 0 then 1 else 0) + Nuls(t[1..])
  }

  lemma {:induction false} NulsConcat(a: Text, b: Text)
    ensures Nuls(a + b) == Nuls(a) + Nuls(b)
  {
    if a == [] {
      assert a + b == b;
    } else {
      assert (a + b)[1..] == a[1..] + b;
      NulsConcat(a[1..], b);
    }
  }

  lemma {:induction false} NoNuls(t: Text)
    ensures Nuls(t) == 0 <==> NulFree(t)
  {
    if t != [] {
      NoNuls(t[1..]);
      assert NulFree(t) <==> t[0] != 0 && NulFree(t[1..]) by {
        assert forall i :: 1 <= i < |t| ==> t[i] == t[1..][i - 1];
      }
    }
  }

  /** Joined fields hold at least one NUL each, and no more exactly if the fields
    * hold none. */
  lemma {:induction false} NulTextNuls(fields: seq<Text>)
    ensures Nuls(NulText(fields)) >= |fields|
    ensures Nuls(NulText(fields)) == |fields| <==> forall i :: 0 <= i < |fields| ==> NulFree(fields[i])
  {
    if fields != [] {
      var rest := NulText(fields[1..]);
      NulTextNuls(fields[1..]);
      NulsConcat(fields[0], [0] + rest);
      assert ([0] + rest)[1..] == rest;
      NoNuls(fields[0]);
      assert fields == [fields[0]] + fields[1..];
    }
  }

  /** So a payload whose four text fields hold no NUL, as that of an honest
    * device, is the payload of no other claim, whatever that one holds. */
  lemma RotationPayloadInjective(c: RotationClaim, d: RotationClaim)
    requires c.Valid() && |d.timestamp| == 8 && RotationPayload(c) == RotationPayload(d)
    ensures c == d
  {
    var a, b := c.Fields(), d.Fields();
    RotationPayloadExactly(c, d);
    NulTextNuls(a);
    NulTextNuls(b);
    CancelPrefix(RotationDomain(), NulJoined(a, c.timestamp), NulJoined(b, d.timestamp));
    NulJoinedUnique(a, b, c.timestamp, d.timestamp);
    assert a[0] == b[0] && a[1] == b[1] && a[2] == b[2] && a[3] == b[3];
  }

  lemma NulTextStep(x: Text, rest: seq<Text>)
    ensures NulText([x] + rest) == x + ([0] + NulText(rest))
  {
    assert ([x] + rest)[1..] == rest;
  }

  lemma NulTextFour(a: Text, b: Text, c: Text, d: Text)
    ensures NulText([a, b, c, d]) == a + ([0] + (b + ([0] + (c + ([0] + (d + [0]))))))
  {
    NulTextStep(a, [b, c, d]);
    NulTextStep(b, [c, d]);
    NulTextStep(c, [d]);
    NulTextStep(d, []);
    assert [a] + [b, c, d] == [a, b, c, d] && [b] + [c, d] == [b, c, d] && [c] + [d] == [c, d];
    assert [d] + [] == [d] && [0] + NulText([]) == [0];
  }

  /** With a NUL inside a field two claims share a payload. */
  lemma RotationsCollide(stamp: Bytes)
    requires |stamp| == 8
    ensures RotationPayload(RotationClaim([97, 0, 98], [99], [100], [101], stamp))
         == RotationPayload(RotationClaim([97], [98], [99], [100, 0, 101], stamp))
  {
    var c := RotationClaim([97, 0, 98], [99], [100], [101], stamp);
    var d := RotationClaim([97], [98], [99], [100, 0, 101], stamp);
    RotationPayloadExactly(c, d);
    NulTextFour(c.oldId, c.newId, c.oldKey, c.newKey);
    NulTextFour(d.oldId, d.newId, d.oldKey, d.newKey);
    assert NulText(c.Fields()) == [97, 0, 98, 0, 99, 0, 100, 0, 101, 0];
    assert NulText(d.Fields()) == [97, 0, 98, 0, 99, 0, 100, 0, 101, 0];
  }

  // ---- Security event payload ---------------------------------------------------------

  /** details is the canonical JSON, which never holds a NUL byte. */
  datatype EventRecord = EventRecord(timestamp: Bytes, severity: Text, eventType: Text,
                                     deviceId: Option<Text>, description: Text, details: Bytes)
  {
    function Device(): Text { if deviceId.Some? then deviceId.value else [] }

    ghost predicate Valid() {
      && |timestamp| == 8 && NulFree(severity) && NulFree(eventType) && NulFree(Device())
      && forall i :: 0 <= i < |details| ==> details[i] != 0
    }
  }

  function EventDomain(): Bytes { Ascii("peerc-security-event") + [0] }

  function EventPayload(e: EventRecord): Bytes {
    EventDomain() + (e.timestamp + ([0] + NulJoined([e.severity, e.eventType, e.Device()],
                                                    Utf8(e.description) + ([0] + e.details))))
  }

  ghost predicate NulFreeBytes(b: Bytes) { forall i :: 0 <= i < |b| ==> b[i] != 0 }

  /** The text of an event payload: three fields, and the description. */
  function EventText(e: EventRecord): Text {
    NulText([e.severity, e.eventType, e.Device()]) + e.description
  }

  lemma EventPayloadText(e: EventRecord)
    ensures EventPayload(e) == EventDomain() + (e.timestamp + ([0] + (Utf8(EventText(e)) + ([0] + e.details))))
  {
    var fields, tail := [e.severity, e.eventType, e.Device()], Utf8(e.description) + ([0] + e.details);
    NulJoinedIsText(fields, tail);
    Utf8Concat(NulText(fields), e.description);
    assert Utf8(NulText(fields)) + tail == Utf8(EventText(e)) + ([0] + e.details);
  }

  /** Event payloads agree exactly when time stamp and details do and the texts
    * read the same with NULs between them. */
  lemma EventPayloadExactly(e: EventRecord, f: EventRecord)
    requires |e.timestamp| == 8 && |f.timestamp| == 8 && NulFreeBytes(e.details) && NulFreeBytes(f.details)
    ensures EventPayload(e) == EventPayload(f)
       <==> e.timestamp == f.timestamp && e.details == f.details && EventText(e) == EventText(f)
  {
    EventPayloadText(e);
    EventPayloadText(f);
    if EventPayload(e) == EventPayload(f) {
      var x, y := Utf8(EventText(e)) + ([0] + e.details), Utf8(EventText(f)) + ([0] + f.details);
      CancelPrefix(EventDomain(), e.timestamp + ([0] + x), f.timestamp + ([0] + y));
      assert (e.timestamp + ([0] + x))[..8] == e.timestamp && (f.timestamp + ([0] + y))[..8] == f.timestamp;
      CancelPrefix(e.timestamp, [0] + x, [0] + y);
      CancelPrefix([0], x, y);
      LastSeparator(0, Utf8(EventText(e)), e.details, Utf8(EventText(f)), f.details);
      Utf8Injective(EventText(e), EventText(f));
    }
  }

  lemma EventFieldsFree(e: EventRecord, f: EventRecord)
    requires e.Valid() && NulFree(e.description) && EventText(e) == EventText(f)
    ensures NulFree(f.severity) && NulFree(f.eventType) && NulFree(f.Device())
  {
    var a, b := [e.severity, e.eventType, e.Device()], [f.severity, f.eventType, f.Device()];
    NulsConcat(NulText(a), e.description);
    NulsConcat(NulText(b), f.description);
    NoNuls(e.description);
    NulTextNuls(a);
    NulTextNuls(b);
    assert NulFree(b[0]) && NulFree(b[1]) && NulFree(b[2]);
  }

  /** So with no NUL in type and device id they determine every field, with a
    * missing device id read as the empty one. The other event may hold a NUL in
    * them as long as this one's description holds none; with none in either's
    * type and device id, the descriptions may hold any character. */
  lemma EventPayloadUnique(e: EventRecord, f: EventRecord)
    requires e.Valid() && |f.timestamp| == 8 && NulFreeBytes(f.details) && (f.Valid() || NulFree(e.description))
    ensures EventPayload(e) == EventPayload(f)
       <==> e.(deviceId := None) == f.(deviceId := None) && e.Device() == f.Device()
  {
    if EventPayload(e) == EventPayload(f) {
      EventPayloadExactly(e, f);
      if !f.Valid() { EventFieldsFree(e, f); }
      var a, b := [e.severity, e.eventType, e.Device()], [f.severity, f.eventType, f.Device()];
      EventTextUnique(a, e.description, b, f.description);
      assert a[0] == b[0] && a[1] == b[1] && a[2] == b[2];
    }
  }

  lemma EventTextUnique(a: seq<Text>, x: Text, b: seq<Text>, y: Text)
    requires |a| == |b| && (forall i :: 0 <= i < |a| ==> NulFree(a[i]) && NulFree(b[i]))
    requires NulText(a) + x == NulText(b) + y
    ensures a == b && x == y
  {
    Utf8Concat(NulText(a), x);
    Utf8Concat(NulText(b), y);
    NulJoinedIsText(a, Utf8(x));
    NulJoinedIsText(b, Utf8(y));
    NulJoinedUnique(a, b, Utf8(x), Utf8(y));
    Utf8Injective(x, y);
  }

  /** With a NUL in the event type two events share a payload. */
  lemma EventsCollide(stamp: Bytes, severity: Text, details: Bytes)
    requires |stamp| == 8 && NulFreeBytes(details)
    ensures EventPayload(EventRecord(stamp, severity, [97, 0, 98], Some([99]), [100], details))
         == EventPayload(EventRecord(stamp, severity, [97], Some([98]), [99, 0, 100], details))
  {
    var e := EventRecord(stamp, severity, [97, 0, 98], Some([99]), [100], details);
    var f := EventRecord(stamp, severity, [97], Some([98]), [99, 0, 100], details);
    EventPayloadExactly(e, f);
    EventTextSpelled(e);
    EventTextSpelled(f);
    assert severity + ([0] + ([97, 0, 98] + ([0] + ([99] + ([0] + [100])))))
        == severity + ([0] + ([97] + ([0] + ([98] + ([0] + [99, 0, 100])))));
  }

  lemma EventTextSpelled(e: EventRecord)
    ensures EventText(e)
         == e.severity + ([0] + (e.eventType + ([0] + (e.Device() + ([0] + e.description)))))
  {
    var a, b, c := e.severity, e.eventType, e.Device();
    NulTextStep(a, [b, c]);
    NulTextStep(b, [c]);
    NulTextStep(c, []);
    assert [a] + [b, c] == [a, b, c] && [b] + [c] == [b, c] && [c] + [] == [c];
  }

  // ---- Domain separation ---------------------------------------------------------------

  datatype Kind = ResponderSig | InitiatorSig | RotationSig | EventSig

  function Domain(k: Kind): Bytes {
    match k
    case ResponderSig => ResponderDomain()
    case InitiatorSig => InitiatorDomain()
    case RotationSig => RotationDomain()
    case EventSig => EventDomain()
  }

  /** No payload of one kind equals a payload of another kind. */
  lemma DomainsDisjoint(j: Kind, k: Kind, a: Bytes, b: Bytes)
    requires j != k
    ensures Domain(j) + a != Domain(k) + b
  {
    var i := if {j, k} == {ResponderSig, InitiatorSig} then 19 else 6;
    assert Domain(j)[i] != Domain(k)[i];
    assert (Domain(j) + a)[i] == Domain(j)[i] && (Domain(k) + b)[i] == Domain(k)[i];
  }
}
