# peerc: a verified model

peerc is a peer-to-peer chat and file-transfer program. This project models its
five state-heavy parts in Dafny and proves what they promise over every input,
every run and every interleaving:

- **Trust store and rotation graph** (`graph`, `trust_store`, `trust_runs`,
  `trust_order`, `trust_documented`, `trust_history`): two tables changed in
  place, and a worklist search that decides trust over the component of a device.
- **Secure session** (`text_codes`, `signed_payloads`, `nonce_cache`,
  `handshake`, `handshake_runs`, `handshake_worlds`, `handshake_results`,
  `secure_channel`, `frame`, `secure_transport`): the three-message handshake with any number of
  concurrent sessions, key derivation, the AEAD channel, framing, and the
  encrypted transport. The network chooses every message.
- **File transfer** (`file_receiver`, `receiver_runs`, `dest_path`, `manager`,
  `manager_runs`, `manager_offers`, `transfer_session`, `transfer_safety`,
  `transfer_chunks`, `transfer_once`, `transfer_listing`, `transfer_progress`,
  `transfer_completion`, `transfer_ends`, `transfer_runs`, `file_over_session`): chunker, receiver, quotas, destination names, and the
  protocol between sessions over any number of connections.
- **Recovery code** (`strings`, `recovery_code`, `recovery_errors`): the
  Crockford printer, the parser and its mod-37 check symbol.
- **Chat delivery** (`chat`): sends, acks and timeouts in any order.

`wrappers`, `positional` and `bytes` hold Option/Result, positional notation
and fixed-width big-endian integers.

## How things are modelled

Objects the program updates in place are classes whose methods are proved
against functions on the value of their fields; runs and interleavings are
sequences of those functions. A function that awaits is split at each await,
so that anything may happen in between. Time is a parameter.

The cryptographic primitives are function-valued fields. What is assumed of
each is written out:

- AEAD (section 2.8 of RFC 8439): `Crypto.AeadCorrect` says that decryption
  inverts encryption and that a tag is 16 bytes; `ChannelRuns.Unforged` says
  that a ciphertext opens under a key only to something a holder of that key
  encrypted under the same nonce and associated data.
- HKDF (section 2 of RFC 5869): `Kdf.KdfSeparates` says that keys are 32 bytes
  and that the two directional labels give different keys; `Kdf.NoCollision` says
  that no two of the inputs in use give the same key.
- X25519 (section 6.1 of RFC 7748) and Ed25519 (section 5.1 of RFC 8032):
  `Asym.Sound` says that the exchange commutes and that signatures verify;
  `HandshakeRuns.Unforged` says that a signature verifies under an honest key
  only if its owner signed that very message, in whatever piece of code.
- SHA-256: `CollisionFree` says that no two files share a digest, and
  `HandshakeResults.HashesApart` that no two transcripts of one run share a hash.

The other hypotheses are: `HandshakeRuns.NewNonce` (random nonces do not
repeat), `Joined` (a parsed JSON string never has a high surrogate directly
before a low one, because `json.loads` joins such a pair),
`NonceCaches.Nondecreasing` and `HandshakeWorlds.ClockAdvances` (the clock does
not run backwards), `TransferManagers.Orderly` (a receiver is registered with no
other registration since its own validation, and started only while active),
`TransferManagers.NamedApart` and `TransferProgress.ApartFromLive` (a path is
given out only when names and existing files show it to be separate from those
of live transfers), `TransferProgress.Steady` (the connections hold and the file
does not change under the sender), and `RecoveryCode.Uppers` (what is used of
the Unicode table behind `str.upper`). Each is used only where it is named.
`HonestRunCompletes` shows that the handshake hypotheses can be met together.

## What turned out not to hold as stated

- A message can get two statuses: `chat.py` reports `failed` for a failing
  send even when an ack was handled during it (`TwoStatuses`). That is the only
  way (`OneStatusUnlessAckedDuringFailedSend`).
- The check symbol misses one transposition: itself with the data symbol
  nineteen places before it, since 32^18 is -1 modulo 37 (`SurvivingSwap`). It
  catches every other (`TranspositionExactly`). It also misses an inserted symbol
  that is six times the number spelled before it, modulo 37, in a code that begins
  with zero (`SurvivingInsertion`, `InsertionExactly`).
- A send too large for one frame has already used a sequence number, so the
  receiver refuses everything after it (`LosslessDelivery`).
- At the transport layer a frame reported as an error can have moved the receive
  counter: exactly when it is the peer's next authentic frame and its text is
  empty or marked as JSON without being JSON (`RejectionMovesCounter`,
  `EmptyTextMovesCounter`). The payloads returned are a gap-free prefix of those
  the peer encrypted exactly when none of them is of that kind
  (`ReturnedIsPrefix`), which the program's own sends never are
  (`HonestContent`).
- An empty binary payload encodes and cannot be read back (`ReadEncoded`).
- `check_with_rotation` is documented to follow trust from a predecessor; the
  code takes any trusted member of the component, so trust also flows backward
  (`TrustFlowsBackward`). `AgreesExactly` says when the two answers agree; they
  always do when the component's rotations were recorded from trusted devices
  (`AgreesAfterTrustedRotations`). A trusted verdict pins down one key exactly
  when the device has a row of its own (`VerdictBindsKey`).
- `get_rotation_chain` is documented to list oldest first; it does exactly when
  the stamps grow across every recorded transition (`DocumentedOrderExactly`),
  and no stamp is checked (`WrongOrderIsReachable`).
- A free path need not be a separate one. Two offers waiting for the user, on two
  connections, can be given one path (`SharedPathFails`), and even strictly in
  turn on one connection a path can be given out whose `.part` is the destination
  of a live transfer: then a transfer fails and its cleanup deletes a delivered
  file (`NestedPathFails`). `ApartIsSeparate` says, in terms of names, exactly
  when a free path is separate, and `OneConnectionApart` what is left of that on
  one connection; then no transfer fails while the connections hold
  (`NoSpuriousFailure`). The same holds of the manager's path search
  (`SeparationOfFree`, `DiskQuotaExceeded`).
- An accept that is handled before `offer_file` has listed the transfer is ignored,
  and the transfer waits for ever (`AcceptBeforeList`). When nothing is left to
  do, exactly the transfers whose accept was handled while listed are delivered
  and reported (`Completion`).
- Validating an offer and registering it are two calls, so two offers validated
  together can exceed the limits (`OverlapExceedsLimit`). A registration keeps
  them exactly when a validation made at that moment would find room
  (`CreateKeepsLimitsExactly`).
- A resumed stream is refused when both ends number the offset differently,
  and only then (`ChunkSizesAgree`, `OtherSizeRefused`).
- A `finish` that was never prepared can succeed only for an offer of size
  zero (`DestinationIsVerified`), and does so with any file of the offered digest
  (`UnpreparedFinish`).
- The strings behind a rotation, an event or a transcript hash determine their
  parts only up to separators inside the parts (`RotationsCollide`,
  `EventsCollide`, `SplitSignaturesCollide`); `RotationPayloadExactly`,
  `EventPayloadExactly` and `FinalTranscriptExactly` say exactly what they
  determine.

## Model

| member | source | states |
|---|---|---|
| `TrustStores.TrustStore.RecordFirstSeen` | core/trust/store.py:135-152 | inserts a pending row, refuses a known id without touching anything |
| `TrustStores.TrustStore.TouchLastSeen` | core/trust/store.py:154-161 | moves only the last-seen time, no-op for an unknown id |
| `TrustStores.TrustStore.Approve` | core/trust/store.py:163-183 | trusts a known unrevoked device, refuses the rest unchanged |
| `TrustStores.TrustStore.RevokeDevice` | core/trust/revocation.py:25-45 | revokes once with its audit record, refuses unknown and already revoked |
| `TrustStores.TrustStore.RecordRotation` | core/trust/store.py:199-304 | records a verified transition of an unrevoked device and carries trust forward, all error paths leave both tables as they were |
| `TrustStores.TrustStore.Check` | core/trust/store.py:94-121 | key mismatch before status |
| `TrustStores.TrustStore.Component` | core/trust/store.py:317-335 | the worklist ends on any graph, cyclic or branching, and visits exactly the undirected component |
| `TrustStores.TrustStore.GetRotationChain` | core/trust/store.py:306-346 | each member of the component once, sorted by a time of introduction |
| `TrustStores.TrustStore.CheckWithRotation` | core/trust/store.py:348-398 | equals the rule: key mismatch, else any revoked, else any trusted in the component, else the row itself |
| `ChainOrder.OldestFirstExactly` | core/trust/store.py:337-346 | one device is sure to be listed before another iff all transitions into it are stamped earlier |
| `ChainOrder.DocumentedOrderExactly` | core/trust/store.py:306-346 | every list has the old device of each recorded transition before the new one iff across each transition all stamps into the old are below all stamps into the new |
| `ChainOrder.WrongOrderIsReachable` | core/trust/store.py:337-346 | a run after which every list is in the wrong order |
| `TrustRuns.StepExtends` | core/trust/store.py:135-295 | no operation drops or rekeys a row, lowers a status, rewrites a revocation or forgets a transition |
| `TrustRuns.RunExtends` | core/trust/store.py:135-295 | the same over every sequence of operations |
| `TrustRuns.TaintIsPermanent` | core/trust/store.py:365-398 | after any operations, every member of a component with a once revoked device, merged later or not, is refused |
| `TrustRuns.RefusalIsPermanent` | core/trust/store.py:348-398 | a refusal is never lifted, and stays the same refusal for a device with a row |
| `TrustRuns.ChainSharesFate` | core/trust/store.py:365-398 | members of one component see the same revocations and the same trust |
| `TrustRuns.TrustHasProvenance` | core/trust/store.py:250-293 | in every reachable store a trusted device was approved or lies downstream of an approved one |
| `TrustRuns.TrustedVerdictWasApproved` | core/trust/store.py:348-398 | a trusted verdict implies that the user approved some member of the component |
| `TrustRuns.TrustPersists` | core/trust/store.py:348-398 | trust once granted stays while the key matches and nothing in the component is revoked |
| `TrustRuns.VerdictBindsKey` | core/trust/store.py:366-398 | a trusted verdict fixes one key iff the device has its own row |
| `TrustRuns.RowlessTrustIsReachable` | core/trust/store.py:268-293 | a run in which a device without a row is reported trusted |
| `DocumentedTrust.AgreesExactly` | core/trust/store.py:351-398 | for every store, exactly when the verdict is the documented one, and that otherwise the code says trusted |
| `DocumentedTrust.AgreesAfterTrustedRotations` | core/trust/store.py:351-398 | the two agree after every run in which the component's rotations were recorded from trusted devices |
| `DocumentedTrust.TrustFlowsBackward` | core/trust/store.py:351-398 | a run in which a pending device is reported trusted because its successor is |
| `TrustHistory.RevocationTakesEffect` | core/trust/revocation.py:25-45 | a revocation carried out in any store holds after whatever is done next: the row says by whom, when and why, and every device then in its component is refused |
| `TrustHistory.RowsExactly` | core/trust/store.py:135-304 | in every run a device has a row iff it was sighted or handed over to, is revoked iff that was carried out, is trusted iff approved or handed over to and not revoked, and a transition is recorded iff a verified certificate came from an unrevoked device |
| `TrustHistory.TransitionWasVerified` | core/trust/store.py:199-265 | every transition row was put there by a verified certificate, from a device not revoked then, and holds its keys, stamp and signature |
| `TrustHistory.TransitionRow` | core/trust/store.py:230-265 | namely the last such certificate |
| `TrustHistory.KeyHasProvenance` | core/trust/store.py:135-295 | every stored key is that of the first sighting, or the new key of a verified certificate for that device from a device trusted then |
| `TrustHistory.AdmissionIsFinal` | core/trust/store.py:135-295 | what admitted a device fixes its key, name and first-seen time in every later store |
| `TrustHistory.RevocationIsFinal` | core/trust/revocation.py:25-45 | what revoked a device fixes its record in every later store |
| `TrustHistory.LastSeenExactly` | core/trust/store.py:135-295 | the last-seen time is that of the last sighting, touch or hand-over |
| `TrustHistory.RefusalsExactly` | core/trust/store.py:135-250 | which calls are refused, and why, in terms of the rows they find |
| `TextCodes.TerminatedUnique` | core/identity/rotation.py:142-171 | text in a prefix-free code followed by its terminator can be read off a byte string in one way only |
| `TextCodes.EscapedUnique` | core/crypto/handshake.py:133-134 | two strings have the same JSON escapes iff they agree in UTF-16 |
| `TextCodes.Utf16Injective` | core/crypto/handshake.py:133-134 | strings without split surrogate pairs are determined by their UTF-16 |
| `SignedPayloads.ResponderTranscriptUnique` | core/crypto/handshake.py:137-155 | a responder transcript with anything behind it determines its twelve fields up to UTF-16 and what follows, both directions |
| `SignedPayloads.ResponderTranscriptInjective` | core/crypto/handshake.py:137-155 | over parsed messages it determines the twelve fields |
| `SignedPayloads.InitiatorTranscriptInjective` | core/crypto/handshake.py:158-165 | so does an initiator transcript, and the response signature text |
| `SignedPayloads.FinalTranscriptExactly` | core/crypto/handshake.py:168-173 | the strings behind two transcript hashes agree iff the fields and the joined signature texts do, and then the signatures do if the finish signature has no newline |
| `SignedPayloads.SplitSignaturesCollide` | core/crypto/handshake.py:168-173 | a newline moved from the end of any response signature text to the front of any finish signature text leaves the string as it was |
| `Hex.NewlineIsIgnored` | core/crypto/handshake.py:178-181 | and both texts still decode to the same bytes |
| `SignedPayloads.RotationPayloadExactly` | core/identity/rotation.py:135-171 | rotation payloads agree iff the stamps and the NUL-joined texts do, whatever the fields hold |
| `SignedPayloads.RotationPayloadInjective` | core/identity/rotation.py:145-147 | a payload whose text fields hold no NUL, as that comment promises of ids and base64, is the payload of no other claim, whatever that one holds |
| `SignedPayloads.RotationsCollide` | core/identity/rotation.py:135-171 | two claims, with a NUL in a field, that share a payload |
| `SignedPayloads.EventPayloadExactly` | core/security/events.py:172-203 | event payloads agree iff stamp, details and NUL-joined texts do, whatever the fields hold |
| `SignedPayloads.EventPayloadUnique` | core/security/events.py:172-203 | an event with no NUL in severity, type and device id shares its payload only with an event of the same fields, a missing device id read as empty, if the other has no NUL there either or its own description has none |
| `SignedPayloads.EventsCollide` | core/security/events.py:172-203 | two events, with a NUL in a type or a description, that share a payload |
| `SignedPayloads.DomainsDisjoint` | core/crypto/handshake.py:155-165 | signed strings of different kinds are never equal |
| `NonceCaches.NonceCache.CheckAndAdd` | core/crypto/handshake.py:115-126 | drops exactly the expired entries, then answers and records |
| `NonceCaches.CacheMeetsHistory` | core/crypto/handshake.py:108-126 | every answer equals that of a specification which forgets nothing |
| `Hex.HexRoundTrip` | core/crypto/handshake.py:178-181 | hex text reads back to its bytes |
| `Handshakes.UndisturbedCompletes` | core/crypto/handshake.py:224-468 | with messages delivered as sent, both sides complete with one secret, one hash and each other's id and name iff no nonce is a replay, no store refuses and the exchange yields a secret |
| `HandshakeRuns.ResponderSigned` | core/crypto/handshake.py:404-405 | an honest signature on a responder transcript came from a responder session on exactly those fields |
| `HandshakeRuns.InitiatorSigned` | core/crypto/handshake.py:309-311 | an honest signature on an initiator transcript came from an initiator session on exactly those fields and that response signature |
| `HandshakeRuns.StepKeeps` | core/crypto/handshake.py:224-468 | every step of every session keeps the authentication invariant |
| `HandshakeRuns.InitiatorAgreement` | core/crypto/handshake.py:292-334 | in every run, a completed initiator names the device of its peer's key and has a responder session of that key's owner with the same twelve fields and the same secret |
| `HandshakeRuns.ResponderAgreement` | core/crypto/handshake.py:435-468 | in every run, a completed responder names the device of its peer's key and has an initiator session of that key's owner with the same fields, response signature and secret, and the same transcript hash if the finish text arrived unchanged |
| `HandshakeRuns.PartnerIsUnique` | core/crypto/handshake.py:236-248 | agreement is one to one |
| `HandshakeRuns.GateExtends` | core/crypto/handshake.py:199-221 | the trust gate lets through exactly the unknown devices and those with a matching key that are not revoked, with the decision their row says, and only adds a pending row of that key, name and time or moves a last-seen time |
| `HandshakeRuns.RevokedStaysOut` | core/crypto/handshake.py:199-221 | once a device is revoked no later handshake of the store's owner passes its check, over every run |
| `HandshakeWorlds.SameNonceFarApart` | core/crypto/handshake.py:268-279 | in every run two sessions of one device whose checks were not refused as a replay of one peer nonce are more than the window apart |
| `HandshakeResults.ResultMeans` | core/crypto/handshake.py:199-468 | in every run a completed session names the device, key and name its peer presented and verified, and its decision is unknown iff it has no store, else trusted iff the peer's row was trusted right after the check, else pending |
| `HandshakeResults.HashDeterminesFields` | core/crypto/handshake.py:98-173 | completed sessions of one run with the same transcript hash have the same twelve fields and the same joined signatures |
| `HandshakeResults.CheckRefusesExactly` | core/crypto/handshake.py:178-221 | which of replay, wrong id, changed key and revocation a peer is refused for, in terms of the cache and its row |
| `HandshakeResults.FailsExactly` | core/crypto/handshake.py:268-334 | which failure an initiator ends with, and that it signs only after the response verified |
| `HandshakeResults.FinishFailsExactly` | core/crypto/handshake.py:435-468 | which failure a responder ends with |
| `Handshakes.KindsDiffer` | core/crypto/handshake.py:236-248 | an init and the response to it name their kinds, which differ |
| `HandshakeWorlds.HonestRunCompletes` | core/crypto/handshake.py:224-468 | an undisturbed exchange is a run without forgeries in which both sides complete with one secret and one hash |
| `SecureSessions.SessionIsSecure` | core/crypto/handshake.py:98-105 | agreeing sessions derive mirrored keys, and over any network each then returns exactly a prefix of what the other encrypted |
| `SecureSessions.SessionsKeepApart` | core/crypto/handshake.py:98-105 | two completed sessions of a run share no key in any direction, nor a session id, iff their secrets or their transcript hashes differ |
| `Kdf.KeysMirror` | core/crypto/kdf.py:57-123 | the two roles get mirrored, distinct 32-byte keys, each sending under the label of its direction, iff secret and salt are 32 bytes, else the same error |
| `Kdf.KeysAgreeExactly` | core/crypto/kdf.py:57-123 | of two derivations, send keys agree iff secret, salt and role do, a send key is the other's receive key iff secret and salt agree and the roles differ, session ids agree iff secret and salt do |
| `SecureChannels.OpenChannel` | core/crypto/encryption.py:92-96 | a channel is built iff both keys are 32 bytes |
| `SecureChannels.ConstructNonce` | core/crypto/encryption.py:67-70 | 12 bytes whose value is the sequence number, for exactly the numbers that fit |
| `SecureChannels.SecureChannel.EncryptNext` | core/crypto/encryption.py:98-104 | encrypts under the next number, leaves the channel unchanged on error |
| `SecureChannels.SecureChannel.DecryptNext` | core/crypto/encryption.py:106-120 | accepts only the next number and an authentic text, leaves the channel unchanged on error |
| `ChannelRuns.RunIsSafe` | core/crypto/encryption.py:98-120 | over every run and any network the returned payloads are a prefix of those the peer encrypted, both ways |
| `ChannelRuns.NoncesNeverRepeat` | core/crypto/encryption.py:67-104 | in every run, forgeries or not, no key and nonce are used twice, across both ends |
| `ChannelRuns.RejectionChangesNothing` | core/crypto/encryption.py:106-120 | a rejected frame leaves both ends as they were |
| `ChannelRuns.GenuineNextIsAccepted` | core/crypto/encryption.py:106-120 | the peer's next frame is accepted whatever the network delivered before it |
| `Frames.StreamReader.ReadRaw` | core/protocol/frame.py:83-94 | one frame off the stream, or the error and what it consumed |
| `Frames.StreamReader.ReadLoop` | peer.py:114-145 | the frames handed on and why the loop stops, a payload that fails to parse or is too short included |
| `Frames.LoopReadsExactly` | peer.py:114-145 | those are the frames of the stream up to the first that is not handled |
| `Frames.ReadEncoded` | core/protocol/frame.py:35-94 | an encoded frame is read back with the rest left over iff its payload is not empty |
| `Frames.BadLengthExactly` | core/protocol/frame.py:83-94 | a length is refused iff no frame with a payload between 1 byte and 100 MiB has that header |
| `Frames.ReadIsEncoded` | core/protocol/frame.py:83-94 | whatever is read was encoded at the front of the stream |
| `Frames.ReadAllPrefix` | core/protocol/frame.py:83-94 | reading a concatenation of frames gives that list and then what follows |
| `Frames.TruncatedStream` | core/protocol/frame.py:83-94 | a stream cut anywhere gives exactly its complete frames |
| `Frames.ReadAllIsPrefix` | core/protocol/frame.py:83-94 | on any bytes, the frames returned are an encoded prefix of them |
| `Frames.StreamInjective` | core/protocol/frame.py:35-53 | no byte string is two lists of frames |
| `FileData.FileDataRoundTrip` | core/protocol/binary.py:31-64 | a chunk whose numbers fit decodes to itself |
| `FileData.FileDataOnto` | core/protocol/binary.py:45-64 | every decodable payload is the encoding of what it decodes to |
| `FileData.FileDataExactly` | core/protocol/binary.py:31-64 | a chunk encodes iff its number has 32 bits and its offset 64, and a payload is too short iff it is under 28 bytes |
| `FileData.HandledExactly` | peer.py:114-145 | the read loop hands on exactly the valid JSON frames and the binary frames that hold a chunk |
| `SecureTransports.EncryptedTransport.SendInner` | core/transport/secure.py:66-79 | the written frame, each error, and that the counter has moved by the time a frame proves too wide or too large |
| `SecureTransports.EncryptedTransport.SendMessage` | core/transport/secure.py:49-56 | the same behind the JSON marker |
| `SecureTransports.EncryptedTransport.SendBinary` | core/transport/secure.py:58-64 | the same behind the binary marker |
| `SecureTransports.EncryptedTransport.Receive` | core/transport/secure.py:81-131 | the classified payload or the error, the new counters and the rest of the stream |
| `SecureTransports.SendRefusedExactly` | core/transport/secure.py:66-79 | each reason a send is refused, in terms of counter, link and text length, and that every other is written |
| `SecureTransports.WireRefusedExactly` | core/transport/secure.py:88-117 | each reason a frame is refused, in terms of its kind, length, number and authenticity |
| `SecureTransports.StreamRefusedExactly` | core/transport/secure.py:81-98 | when a read closes the transport, and what a bad length leaves unread |
| `SecureTransports.RejectionMovesCounter` | core/transport/secure.py:96-131 | a read reports an error and moves the counter iff the first frame is binary, long enough, carries the expected number, is authentic, and opens to an empty text or to ill-formed JSON |
| `SecureTransports.EmptyTextMovesCounter` | core/transport/secure.py:109-117 | such a frame |
| `HostileStream.MovesAreNext` | core/transport/secure.py:81-131 | on any byte stream the reads that move the counter give the peer's next texts, in order and without gaps |
| `HostileStream.ReturnedIsPrefix` | core/transport/secure.py:66-131 | on any byte stream, after any run of the peer, the payloads returned are those texts iff none has refused content |
| `HostileStream.HonestContent` | core/transport/secure.py:49-64 | what send_binary and send_message encrypt, and any text with neither marker, is never refused and is returned as given |
| `LosslessSession.LosslessDelivery` | core/transport/secure.py:66-131 | over a link that loses nothing, exactly the sends before the first that does not fit arrive, and every later frame is refused |
| `LosslessSession.ChunksArrive` | core/transport/secure.py:58-131 | file chunks survive file_data, AEAD and frame encoding end to end |
| `Chunker.ReadChunks` | core/transfer/chunker.py:28-45 | the chunks from an offset on, or the error for an offset beyond the end |
| `Chunker.ChunksCover` | core/transfer/chunker.py:36-45 | the chunks make up the rest of the file, contiguous and non-empty, each numbered by offset div chunk size |
| `Chunker.FileSender.GetChunks` | core/transfer/sender.py:40-46 | the chunk stream, with the progress counter at the file size at its end |
| `FileReceivers.FileReceiver.PrepareToReceive` | core/transfer/receiver.py:96-117 | resumes a partial file shorter than the offer, else starts an empty one |
| `FileReceivers.FileReceiver.Write` | core/transfer/receiver.py:119-137 | appends the awaited chunk that fits, else changes nothing and says why |
| `FileReceivers.FileReceiver.FinishTransfer` | core/transfer/receiver.py:139-158 | renames a staged file of the right size and digest, else removes it |
| `FileReceivers.FileReceiver.AbortTransfer` | core/transfer/receiver.py:160-171 | fails the transfer and removes the staged file on request |
| `ReceiverRuns.AlwaysStaged` | core/transfer/receiver.py:96-171 | against any calls the staged bytes are the resumed prefix and the accepted chunks in order, as many as counted, at most the offered size |
| `ReceiverRuns.DestinationIsVerified` | core/transfer/receiver.py:139-158 | against any calls only a finish changes the destination, to the staged bytes of the offered size and digest, and no other path is touched |
| `ReceiverRuns.UnpreparedFinish` | core/transfer/receiver.py:139-158 | an unprepared finish of an offer of size zero delivers any file of the offered digest |
| `ReceiverRuns.ResumeRoundTrip` | core/transfer/receiver.py:96-158 | from any resume point no chunk is refused and the result is exactly the file with no .part left, iff what was resumed from is a prefix of it |
| `ReceiverRuns.ResumeAfterAbort` | core/transfer/receiver.py:96-171 | after any calls a transfer aborted without cleanup is resumed with every byte it had taken, and one aborted with cleanup from nothing |
| `ReceiverRuns.FinishExactly` | core/transfer/receiver.py:139-158 | after any calls a prepared finish succeeds iff the resumed prefix with the accepted chunks has the offered size and digest, and then the destination is that |
| `ReceiverRuns.PrepareExactly` | core/transfer/receiver.py:96-117 | it goes on behind a partial file iff asked to and finds one neither empty nor as long as the offer, else it begins with an empty file |
| `ReceiverRuns.ChunkSizesAgree` | core/transfer/receiver.py:102-128 | with different chunk sizes a resumed stream is accepted iff both number the offset alike |
| `ReceiverRuns.OtherSizeRefused` | core/transfer/receiver.py:102-128 | an input on which they do not |
| `DestPaths.ResolveSafeDestPath` | core/transfer/receiver.py:47-66 | ends on every finite file system with the first candidate for which neither it nor its .part exists, a direct child of the directory; refuses exactly the unsafe names |
| `DestPaths.SafeNameExactly` | core/transfer/receiver.py:47-56 | a name is taken iff it is what stands behind the last slash or backslash, without white space around it, and is not empty, . or .. |
| `DestPaths.SplitExtExactly` | core/transfer/receiver.py:57-60 | base and extension make up the name, and there is an extension, from the last dot on, iff some dot stands behind a character that is none |
| `DestPaths.CandidateInjective` | core/transfer/receiver.py:57-60 | different counters give different candidates |
| `DestPaths.SearchEnds` | core/transfer/receiver.py:57-60 | some candidate is free on every finite file system |
| `DestPaths.SeparationOfFree` | core/transfer/receiver.py:57-60 | exactly when a free path shares no file with another destination, in terms of names and existing files |
| `TransferManagers.FileTransferManager.Pending` | core/transfer/manager.py:54-60 | the number and summed sizes of active receivers |
| `TransferManagers.FileTransferManager.ValidateOffer` | core/transfer/manager.py:75-98 | the first applicable refusal, or the free path |
| `TransferManagers.FileTransferManager.CreateReceiver` | core/transfer/manager.py:100-119 | registers an idle receiver under the id |
| `TransferManagers.FileTransferManager.CreateSender` | core/transfer/manager.py:62-67 | registers an outgoing transfer under the id |
| `TransferManagers.FileTransferManager.RemoveTransfer` | core/transfer/manager.py:121-124 | drops the id from both tables |
| `TransferManagers.QuotasHold` | core/transfer/manager.py:54-119 | over every run in which no other registration falls between an offer's validation and its own, the active count, the declared sizes and the accepted bytes stay within the limits |
| `TransferManagers.CreateKeepsLimitsExactly` | core/transfer/manager.py:75-119 | a registration keeps the limits iff a validation made now would find room |
| `ManagerOffers.OfferExactly` | core/transfer/manager.py:75-98 | an offer is accepted iff its size, the free space, the active count and the declared total allow it and its name is safe, and each refusal names the first that does not |
| `ManagerOffers.RemovalGivesBack` | core/transfer/manager.py:54-124 | removing a transfer gives back exactly the count and the bytes it held |
| `ManagerOffers.RegisteredWasValidated` | core/transfer/manager.py:75-119 | in every run each registered receiver has the size and the path of an offer validated before, and that path was free then |
| `ManagerRuns.OverlapExceedsLimit` | core/transfer/manager.py:75-119 | two validations and then two registrations exceed a limit of one |
| `TransferManagers.DiskQuotaHolds` | core/transfer/manager.py:54-119 | over every orderly run, when each path given out is apart by name from the active receivers and its .part is no registered destination, all open .part files together stay within the total limit |
| `TransferManagers.AlwaysOnDisk` | core/transfer/manager.py:54-119 | when paths are apart from those of all registered receivers, each open .part file holds exactly what its receiver counted |
| `ManagerRuns.DeliveredIntoPart` | core/transfer/receiver.py:47-66 | an orderly run from an empty directory after which a delivered file is the .part of an open transfer that has accepted nothing |
| `ManagerRuns.DiskQuotaExceeded` | core/transfer/manager.py:54-119 | that run taken on until the open .part files exceed the total limit |
| `TransferSessions.FileTransferSession.OnAccept` | file_transfer.py:202-207 | starts a task for a listed transfer |
| `TransferSessions.FileTransferSession.OnReject` | file_transfer.py:209-215 | reports failure and delists |
| `TransferSessions.FileTransferSession.OnCompleteAck` | file_transfer.py:253-258 | notes the verdict on a listed transfer |
| `TransferSessions.FileTransferSession.OnOffer` | file_transfer.py:262-284 | refuses for size, disk space or name, else keeps the offer with the first free path for the user |
| `TransferSessions.FileTransferSession.OnDecision` | file_transfer.py:300-319 | refuses, or replaces any stale .part by a new file and registers the transfer |
| `TransferSessions.FileTransferSession.OnChunk` | file_transfer.py:333-354 | writes the awaited chunk that fits, aborts on any other |
| `TransferSessions.FileTransferSession.Abort` | file_transfer.py:356-376 | delists, removes the .part and the destination, acknowledges failure |
| `TransferSessions.FileTransferSession.OnDone` | file_transfer.py:378-393 | acknowledges success iff digest and size match, before any rename |
| `TransferSessions.FileTransferSession.AfterAck` | file_transfer.py:395-405 | then renames or cleans up |
| `TransferSafety.SuccessMeansDelivered` | file_transfer.py:217-258 | in every interleaving over channels that may break, a sender reports success only if the receiver had staged exactly the offered file |
| `TransferSafety.AlwaysFilesExist` | file_transfer.py:308-317 | names and handles always lead to files |
| `TransferChunks.NeverOutgrown` | file_transfer.py:333-354 | in every execution an incoming transfer has staged exactly as many bytes as it counted, never more than the offered size |
| `TransferChunks.ChunkExactly` | file_transfer.py:333-376 | a chunk leaves a transfer incoming iff its number, offset and total fit, and is then appended; else the transfer is delisted, loses its two names and is answered with failure |
| `TransferChunks.DoneExactly` | file_transfer.py:378-393 | the answer to file_done is success iff the file under the .part name has the offered digest and the count the offered size |
| `TransferChunks.RenameExactly` | file_transfer.py:395-405 | after the answer a verified file gets its name, any other loses its .part, no other name is touched and the report is the answer |
| `TransferChunks.OfferExactly` | file_transfer.py:262-298 | an offer is put to the user iff it is at most 2 GiB, leaves 10 MiB free where that is known and has a safe name, else it is rejected |
| `TransferRuns.SharedPathFails` | file_transfer.py:279-317 | an execution without loss over two connections in which two offers are given one path and the earlier accepted is reported failed though all its bytes arrived |
| `TransferRuns.NestedPathFails` | file_transfer.py:279-405 | over any connections, one included, an execution without loss, offers strictly in turn, in which the second transfer is checked against the first's file, fails, and deletes it |
| `TransferRuns.AcceptBeforeList` | file_transfer.py:192-204 | an execution without loss in which an accept handled before the offer is listed leaves a transfer waiting with nothing left to do |
| `TransferProgress.ApartIsSeparate` | file_transfer.py:279-317 | exactly when a free path shares no file with any live transfer, in terms of names |
| `TransferProgress.OneConnectionApart` | peer.py:114-141 | over a single connection, whose read loop awaits each handler, that is exactly that its .part is no incoming transfer's destination |
| `TransferOnce.ResolvedAtMostOnce` | file_transfer.py:202-405 | in every interleaving each transfer is reported at most once by either side |
| `TransferListing.ListedUntilReported` | file_transfer.py:192-258 | in every interleaving a transfer that reached the other side has left the sender's table iff it was reported, and its task has ended iff then |
| `TransferProgress.NeededIsChunks` | file_transfer.py:217-231 | the messages of a transfer are its chunks and file_done |
| `TransferProgress.ChunkIsNext` | file_transfer.py:333-354 | an arriving chunk is the one awaited |
| `TransferProgress.DoneIsComplete` | file_transfer.py:378-393 | when file_done arrives the staged bytes are the file and the verdict is success |
| `TransferProgress.NoSpuriousFailure` | file_transfer.py:202-405 | over connections that hold, with paths apart by name, in flight plus unsent is always what is needed, so nothing is aborted or found corrupt and only refused offers fail |
| `TransferProgress.RenameDelivers` | file_transfer.py:401-405 | the rename puts exactly the offered file at the destination, where it is in every later state |
| `TransferCompletion.QuiescentExactly` | file_transfer.py:185-405 | no step is left to sessions and users exactly when nothing is on its way, nobody is asked, nothing waits to be listed or renamed and no task can move |
| `TransferCompletion.Completion` | file_transfer.py:185-405 | then exactly the transfers whose accept was handled while listed are stored with their file in place and reported complete, and every other was refused or waits for its first byte unreported |
| `TransferEnds.OffersComeToAnEnd` | file_transfer.py:185-405 | in every orderly execution only a bounded number of steps can be taken between two new offers |
| `FileOverSession.FileArrives` | core/transfer/sender.py:40-46 | a file sent through chunker, file_data, encryption and framing, and written as it is received, ends as exactly the file at the destination, iff what was resumed from is a prefix of it |
| `RecoveryCode.EncodeCrockford` | core/vault/recovery_code.py:43-50 | the base-32 digits of the bytes as symbols |
| `RecoveryCode.DecodeCrockford` | core/vault/recovery_code.py:53-69 | the bytes, or the error for a foreign symbol or a value too large |
| `RecoveryCode.GenerateRecoveryCode` | core/vault/recovery_code.py:77-88 | 39 characters, the 33 symbols of the code with a dash behind every five, which parse back to the same bytes |
| `RecoveryCode.NormalizeRecoveryCode` | core/vault/recovery_code.py:91-112 | the outcome of cleaning and parsing |
| `RecoveryCode.AcceptedLanguage` | core/vault/recovery_code.py:91-112 | the accepted cleaned strings are exactly the 33 symbols of a code and those behind one extra zero |
| `RecoveryCode.NormalizeExactly` | core/vault/recovery_code.py:91-112 | any text gives a secret iff it is a transcription of its code: any dashes, spaces, case and O/I/L spelling, the letters outside ASCII whose upper case is ASCII, white space around it |
| `RecoveryCode.RefusedExactly` | core/vault/recovery_code.py:53-112 | each way a cleaned text is refused before its check symbol is looked at |
| `RecoveryCode.ChecksumExactly` | core/vault/recovery_code.py:72-74 | two secrets share a check symbol iff they agree modulo 37 |
| `RecoveryErrors.SubstitutionRejected` | core/vault/recovery_code.py:72-112 | every single wrong symbol is rejected, whatever replaces it |
| `RecoveryErrors.TranspositionExactly` | core/vault/recovery_code.py:72-112 | exactly which swaps of two symbols survive |
| `RecoveryErrors.SurvivingSwap` | core/vault/recovery_code.py:72-112 | such a swap: the code of value one with places 13 and 32 exchanged is accepted as another secret |
| `RecoveryErrors.InsertionExactly` | core/vault/recovery_code.py:53-112 | exactly which insertions of one symbol, at any place, survive |
| `RecoveryErrors.SurvivingInsertion` | core/vault/recovery_code.py:53-112 | such an insertion: a 6 behind the 1 of the code of 32^30 is accepted as another secret |
| `RecoveryErrors.DeletionRejected` | core/vault/recovery_code.py:98-112 | deleting any run of symbols from a code is rejected |
| `Chats.ChatSession.SendChat` | chat.py:139-161 | tracks the message before sending, or reports a text that is too long |
| `Chats.ChatSession.SendReturned` | chat.py:161-174 | reports a failed send, else starts the timer of a message still tracked |
| `Chats.ChatSession.AckReceived` | chat.py:113-125 | delivers a tracked message, ignores any other ack |
| `Chats.ChatSession.TimeoutWatcher` | chat.py:127-137 | fails a message still tracked |
| `Chats.AlwaysInv` | chat.py:113-174 | in every interleaving the tracked ids are exactly those without a status, and exactly those past their send have a live timer |
| `Chats.OneStatusUnlessAckedDuringFailedSend` | chat.py:113-174 | at most two statuses, and two iff an ack was handled during a send that then failed |
| `Chats.TwoStatuses` | chat.py:161-166 | the run send, ack, failed return reports both |
| `Chats.EveryStatusHasACause` | chat.py:113-174 | delivered comes from an ack for that id, failed from length, a failed send or a timer |
| `Chats.StatusesExactly` | chat.py:113-174 | delivered is reported iff an ack came while the message was tracked, failed iff its text was too long, its send failed or its timer ran out |
| `Chats.TimerIsDueAfterSend` | chat.py:127-173 | a live timer is due five seconds after the send it watches returned |

## Left out

- `ui.py`, `discovery.py`: terminal, sockets and subprocess probing.
- `peer.py`, `core/transport/tcp.py`, `core/transport/session.py`: stream plumbing, replaced by byte strings and ordered channels.
- `core/identity/key_storage.py`, `core/identity/identity_file.py`, `core/vault/crypto.py`, `core/vault/keyfile.py`: key files and wrappers over Scrypt and AES-GCM.
- `core/protocol/messages.py`: schema checks; handlers here receive messages that passed them.
- Event emission, listeners, logging and redaction.
- The verdict of `verify_transition_certificate` is a parameter; keys are opaque text, so nothing is said about base64 keys from rotation meeting hex keys from the handshake.
- The UUID text of a transfer id, IEEE packing of timestamps and JSON beyond string escapes: ids are their 16 bytes, timestamps their 8 bytes, JSON messages their bytes.
- RecoveryCode.NormalizeRecoveryCode: characters are Unicode scalar values, so a lone surrogate in typed text is not covered; the contract also holds of any other `upper`, and `NormalizeExactly` says what is used of its table.
- DestPaths.ResolveSafeDestPath: symbolic links and the `realpath` check, which cannot fail without them, and path rules other than POSIX, are not modelled.
- FileReceivers.FileReceiver.Write: bytes reach the file at once; buffering and file-system errors other than a missing file are not modelled.
- FileReceivers.FileReceiver.PrepareToReceive: a chunk size of zero, which divides by zero in the source, is excluded.
- TransferSessions.FileTransferSession.OnChunk: progress callbacks are not modelled, nor a chunk number beyond 32 bits, which ends the sending task without a report.
- TransferSessions.FileTransferSession.OnDecision: a send that returns false always loses its message in the model; that its bytes may have left is not modelled.
- The two directions of a connection: the sending and the receiving half of a session share no table, so transfers are modelled between one receiving half and the sending halves it deals with; that a handler of the other direction can hold up a connection's answers is only a delay.
- TransferCompletion.Completion: executions in which the 30-second acknowledgement timeout fires are outside its hypothesis `Steady`; `SuccessMeansDelivered` and `ResolvedAtMostOnce` cover them.
