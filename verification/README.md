# KEMTLS and OpenID Connect: a verified model

This project models a KEM-authenticated TLS stack (KEMTLS) and the OpenID Connect layer on top of it,
and proves what its protocols keep over whole runs.

- **Handshake over datagrams.** Client and server as step functions over packets (`QuicEndpoints`); a
  network that loses, duplicates, delays and reorders datagrams and on which old ones may be sent
  again at any time (`QuicRun`); the one script that the handlers follow (`QuicScript`), the run
  invariant (`QuicSafety`), what it means for the handshake (`QuicTheorems`) and for requests
  (`QuicRequests`), runs that get to the end (`QuicProgress`) and environments that have them
  (`QuicEnvironments`, `MessageSizes`); what is sent for each message, also when it comes again (`QuicAnswers`),
  and when it cannot be sent (`QuicSendFailure`); application packets from anyone (`QuicAuthenticity`).
  The server's connection objects (`QuicObjects`) and the client's retry and receive loops
  (`QuicClientObject`) are imperative and proved to do what the step functions say.
- **Retransmission tables, packet numbers and nonces** (`QuicReliability`, `QuicNumbers`, `QuicPackets`,
  `Nonces`).
- **Handshake** messages, key schedule, certificates, and agreement under arbitrary tampering
  (`Handshake*`, `KeySchedule`, `Certificates`), also for servers that appended messages and then
  refused them (`QuicTampering`, `PollutedServer`, `PredictedKey`).
- **Canonical messages**: canonical JSON, base64url, UTF-8, the concatenated transcript (`CanonicalJson`,
  `JsonText`, `Messages`, `Base64Url`, `Utf8`).
- **TCP** records, handshake framing and the session loop (`RecordLayer`, `TcpSession`).
- **HTTP/1.1** parsing in its two forms and request building (`Http*`).
- **Tokens**: the refresh-token store, authorization codes, the token endpoint, session binding, JWTs
  and userinfo (`RefreshTokens`, `TokenEndpoint`, `TokenRuns`, `TokenFlow`, `TokenClaims`, `SessionBinding`, `Jwt`, `Userinfo`,
  the object forms `RefreshTokenObjects` and `TokenEndpointObjects`, and tokens over handshakes in `BoundTokens`).

Everything works on real bytes and strings. The cryptographic primitives are arbitrary functions of
which only sizes and correctness laws are known (`Primitives.Suite`): a secret key opens what was
encapsulated to its public key, a signature verifies, opening undoes sealing. Nothing says that a hash
or MAC is injective; a lemma that needs two particular inputs not to collide has that as a premise
about those inputs. A Python exception is a `Raise` result. Clocks, random values, the socket's
behaviour and the Flask application are parameters or arbitrary choices.

## Where a promise fails, and exactly when it holds

- A repeated ClientHello is harmless exactly when the two sides share a mode
  (`QuicTheorems.RepeatedHelloIff`): `process_client_hello` appends before it negotiates.
- A handshake message that comes again is harmless exactly when the answer to it was sent
  (`QuicSendFailure.HelloActsOnceIff`, `QuicSendFailure.ExchangeActsOnceIff`): the phase is stepped after the send.
- A server that appended messages and then refused them goes on with them in its transcript. It is
  established over a client's ClientFinished only when it refused nothing before its ClientKeyExchange,
  or when it refused exactly the three messages the client holds (`PollutedServer.EstablishedAgrees`).
  The second case happens when its ephemeral key is known beforehand (`PredictedKey.PredictedKeyAccepted`)
  and not when no refused message carried that key (`PollutedServer.UnseenKeyAgrees`).
- A call over the datagram transport returns the answer to its own request when no reply is outstanding
  as it sends (`QuicRequests.CallGetsOwnReply`). After a timeout the transport stays open and a reply is
  outstanding; a later call on it can then return that reply instead of its own
  (`QuicProgress.LateReplyRun`): replies carry nothing that ties them to requests.
- TCP nonces are pairwise distinct exactly when nothing more is sealed after a send that failed
  (`RecordLayer.NoncesDistinctIff`): the number is stepped only after `sendall`.
- The Rust ClientHello encoder agrees with the canonical one exactly on characters below DEL
  (`HandshakeMessages.RustClientHelloAgreesIff`), and the Rust HKDF loop exactly up to 8128 bytes
  (`KeySchedule.ExpandRust`).
- Received messages need not be canonical, and then the transcript's concatenation determines the
  decoded messages but not their bytes (`Messages.TranscriptDeterminesMessages`,
  `Messages.BoundarySpaceIsInvisible`), and for values that are no objects not even those
  (`Messages.NumbersRunTogether`).
- Reuse of a refresh token ends its family exactly when the token has not expired
  (`RefreshTokens.FamilyEndsIff`).
- An error answer of the refresh grant leaves the token usable exactly when the request did not reach
  rotation (`TokenRuns.StillUsableIff`): the binding proof is checked after rotation.
- base64url decoding accepts texts that do not re-encode to themselves, one of them with a trailing
  newline (`Base64Url.DecodedTextIsCanonicalIff`), although the decoder's comment promises that only
  its alphabet is accepted (src/utils/encoding.py:31-32).

## Model

| member | source | states |
|---|---|---|
| `QuicTheorems.HandshakeSafe` | src/kemtls/quic_server.py:124-198 | Whatever key the client trusts, in every run under loss, duplication, delay, reordering and retransmission the server transcript is the part of [CH, SH, CKE, SF, CF] that belongs to its phase; when the server is established the client has computed a session with the same keys, IVs, exporter secret, binding ids, session id and mode |
| `QuicTheorems.HandlersActOnce` | src/kemtls/quic_server.py:143-198 | A handshake message takes effect at most once: along a run in which the server's answers are sent the transcript only grows, and the handshake state changes only together with the phase |
| `QuicTheorems.SessionsNeedOneSecret` | src/kemtls/handshake.py:213-235 | A client that trusts another key than the server's, and so holds another secret, never gets a session in any run, and its server is never established |
| `QuicRequests.RequestsServedOnce` | src/kemtls/quic_server.py:200-222 | In every run, whenever the client sends its requests, each request is handled at most once, on its own bytes and with the session of the handshake, and each reply received is the application's answer to a request of its own |
| `QuicRequests.CallGetsOwnReply` | src/kemtls/quic_client.py:121-152 | A call that sends its request when no reply is outstanding, and is the last one when the next reply comes, returns the answer to its own request |
| `QuicProgress.LateReplyRun` | src/kemtls/quic_client.py:126-152 | Otherwise not: in a run the client asks b with the reply to a outstanding, and the call that sent b returns the reply to a; without b it is a run that serves a request |
| `QuicRequests.RequestsServedInOrder` | src/kemtls/quic_server.py:200-222 | When the client waits for each reply, requests handled are a prefix of those sent, each once, on its own bytes and after those before it, and the k-th reply received is the application's answer to the k-th request |
| `QuicTheorems.RepeatedHelloIff` | src/kemtls/handshake.py:321-330 | A ClientHello seen again leaves the handshake state alone exactly when the sides share a mode; without one it is appended again |
| `QuicProgress.EstablishingRun` | src/kemtls/quic_client.py:57-107 | When the client trusts the server, some run opens the client and establishes the server |
| `QuicEnvironments.PdkEnvironment` | src/kemtls/handshake.py:323-330 | For every suite with the correctness laws there is an environment in pdk mode that meets every premise of the run results, in which every request that fits is answered |
| `QuicEnvironments.BaselineEnvironment` | src/kemtls/certs.py:15-111 | And one in baseline mode, with a certificate its CA made |
| `QuicEnvironments.ModerateFits` | src/kemtls/quic_packets.py:65-85 | When the parties' texts and the certificate are of moderate size every handshake message fits a datagram's length field |
| `MessageSizes.TextSize` | src/utils/serialization.py:29-48 | A message's text is no longer than a bound on its parts, in whatever order its keys are written |
| `QuicSendFailure.HelloActsOnceIff` | src/kemtls/quic_server.py:143-151 | When sending may raise: an accepted ClientHello that comes again is appended once exactly when its answer was sent the first time |
| `QuicSendFailure.ExchangeActsOnceIff` | src/kemtls/quic_server.py:159-164 | The same for a ClientKeyExchange |
| `QuicTheorems.PhaseGrows` | src/kemtls/quic_server.py:143-201 | No packet takes a connection back to an earlier phase |
| `QuicSafety.RunIsSafe` | src/kemtls/quic_server.py:124-222 | The run invariant (both endpoints, both networks, requests and replies) holds in every state of every run |
| `QuicSafety.StepKeepsSafe` | src/kemtls/quic_client.py:57-107 | Every event of client, server or caller keeps the run invariant |
| `QuicSafety.HelloStep` | src/kemtls/quic_server.py:143-151 | Handling the first INITIAL packet a client can have sent leads to the script's next server state, and all it sends is explained by that state |
| `QuicSafety.RepeatStep` | src/kemtls/quic_server.py:153-185 | Answering a repeated message from the cache keeps the invariant: the handshake state stays that of the phase (which answer is given to which message is QuicAnswers) |
| `QuicSafety.KeyExchangeArrives` | src/kemtls/quic_server.py:159-164 | In the phase that waits for a ClientKeyExchange, any HANDSHAKE packet a client can have sent leads to the script's next server state |
| `QuicSafety.FinishedArrives` | src/kemtls/quic_server.py:166-198 | In the phase after, any HANDSHAKE packet that is no ClientKeyExchange leads to the established state with the agreed keys |
| `QuicSafety.ServerHelloArrives` | src/kemtls/quic_client.py:74-91 | A HANDSHAKE packet leads the waiting client to the script's keyed state, or to failure |
| `QuicSafety.ServerFinishedArrives` | src/kemtls/quic_client.py:89-104 | The ServerFinished opens the session or, when its MAC is not the expected one, makes the client fail; a repeated ServerHello in its place makes the client fail |
| `QuicSafety.RequestArrives` | src/kemtls/quic_server.py:206-222 | Handling an application packet keeps requests, handled requests and replies in step |
| `QuicSafety.ReplyArrives` | src/kemtls/quic_client.py:138-152 | Taking an application packet keeps the replies received different replies that were sent |
| `QuicSafety.RequestPacketOpens` | src/kemtls/quic_server.py:215-218 | A client packet not processed before opens to one of the requests that are not yet handled |
| `QuicSafety.ReplyPacketOpens` | src/kemtls/quic_client.py:140-151 | A server packet not processed before opens to one of the replies that are not yet received |
| `QuicSafety.RequestSent` | src/kemtls/quic_client.py:121-124 | A new request keeps requests, handled requests and replies in step |
| `QuicAnswers.FirstAnswer` | src/kemtls/quic_server.py:143-198 | Whatever state and packet: a handshake message that is accepted is appended with its answer and exactly that answer is sent after the acknowledgement; one that is refused, and a ClientFinished, is only acknowledged |
| `QuicAnswers.RepeatedIsAnsweredAgain` | src/kemtls/quic_server.py:153-185 | After any packets, refused ones included, a repeated ClientHello is answered with the answer to the accepted one and a repeated ClientKeyExchange with the answer to the accepted one, as they stand in the transcript; the handshake state stays |
| `QuicAnswers.RepeatedInRun` | src/kemtls/quic_server.py:153-185 | In every run these are the second and the fourth message of the server transcript |
| `QuicAnswers.RepeatedExchangeOpens` | src/kemtls/quic_server.py:181-185 | A lost ServerFinished is made good: the answer to a repeated ClientKeyExchange opens a waiting client that holds the same secret |
| `QuicAnswers.RequestAnswer` | src/kemtls/quic_server.py:206-222 | Every application packet of an established connection is acknowledged, and nothing else is sent unless the application answers a request not handled before; then exactly that answer follows, sealed |
| `QuicAnswers.OthersIgnored` | src/kemtls/quic_server.py:124-201 | Any other packet of a connection is neither answered nor acted on |
| `QuicAnswers.OthersIgnoredByClient` | src/kemtls/quic_client.py:261-278 | A client acts on no packet of another connection or of another type than the one it waits for |
| `QuicAuthenticity.HandledWasSent` | src/kemtls/quic_server.py:206-222 | Whatever application packet reaches an established server, what is handled is a message the client sealed, under its own number and not before, when the packet's ciphertext is no forgery |
| `QuicAuthenticity.ReceivedWasSent` | src/kemtls/quic_client.py:138-152 | The same for the replies a client takes |
| `QuicScript.SoundFollows` | src/kemtls/handshake.py:131-430 | For every environment whose sides share a mode, whatever key the client trusts (when it is not the server's, the two sides' ServerFinished MACs are taken not to collide), all handlers follow one script of messages, states and sessions |
| `QuicScript.RepeatedServerHelloStep` | src/kemtls/quic_client.py:274-280 | A second ServerHello taken for a ServerFinished raises |
| `QuicScript.ServerHelloStep` | src/kemtls/handshake.py:140-211 | At any time the client takes the one key it trusts from the ServerHello, or raises: time decides whether it accepts, not what |
| `QuicScript.ServerFinishedStep` | src/kemtls/handshake.py:213-235 | The client accepts the ServerFinished exactly when the two sides hold the same secret, given no MAC collision on what they hashed |
| `QuicScript.SoundWhenTrusted` | src/kemtls/handshake.py:148-181 | A client that trusts the server's key needs no premise on the MAC |
| `QuicEndpoints.OpenOfSeal` | src/kemtls/quic_crypto.py:12-58 | A packet sealed for a number opens, with the header rebuilt by the receiver, to the same payload |
| `QuicObjects.ServerConnection.HandlePacket` | src/kemtls/quic_server.py:124-222 | The connection object, updated in place, ends in the state and sends the packets of the server step function |
| `QuicObjects.ServerConnection.OnAppData` | src/kemtls/quic_server.py:200-222 | Acknowledge, drop a number seen before, open, record, parse, run the application, reply: in that order |
| `QuicObjects.KEMTLSQUICServer.HandlePacket` | src/kemtls/quic_server.py:124-139 | A packet reaches the connection of its id and no other, whose state and sent packets are those of its own step; only INITIAL starts one, and CONNECTION_CLOSE ends it |
| `QuicClientObject.QUICClientTransport.Connect` | src/kemtls/quic_client.py:57-107 | Whatever arrives and whenever timers fire, connecting ends open or failed and the object has done exactly what the model's client does on its events; only resends are extra |
| `QuicClientObject.QUICClientTransport.TransmitWithRetry` | src/kemtls/quic_client.py:229-247 | The retry loop returns an acknowledged packet of the expected type for this connection, having sent nothing new besides the packet and the acknowledgement |
| `QuicClientObject.QUICClientTransport.RecvLoop` | src/kemtls/quic_client.py:249-280 | The receive loop returns only a packet of the expected type and connection; it sends only packets sent before |
| `QuicClientObject.QUICClientTransport.RecvApplication` | src/kemtls/quic_client.py:126-152 | Returns the next reply, which is the only change to the replies received, or nothing; the session stays |
| `QuicClientObject.QUICClientTransport.SendApplication` | src/kemtls/quic_client.py:121-124 | Without a session nothing changes; a request that cannot be sealed uses up a number; else exactly its sealed packet is sent and stored, and nothing received changes |
| `QuicClientObject.QUICClientTransport.SendsWithinBudget` | src/kemtls/quic_client.py:239-247 | Whatever arrives and whenever timers fire, the object sends no packet number more than five times |
| `QuicClientObject.ClientNextIsNext` | src/kemtls/quic_client.py:57-152 | The object's steps are the client's part of the steps of the run model |
| `QuicReliability.ServerSender.SendPacket` | src/kemtls/quic_server.py:224-258 | A number is allotted before anything can raise; a sent reliable packet enters both tables with the same deadline and attempts |
| `QuicReliability.ServerSender.ProcessAck` | src/kemtls/quic_server.py:271-276 | An acknowledgement removes the number from both tables; any other payload length is ignored |
| `QuicReliability.ServerSender.RetransmitExpired` | src/kemtls/quic_server.py:278-294 | Exactly the due packets are sent once more, with their stored bytes, and both tables stay in step |
| `QuicReliability.ClientSender.RetryAfterTimeout` | src/kemtls/quic_client.py:239-247 | Nothing when the packet is settled, an error when its budget is spent, else one resend of the stored bytes |
| `QuicReliability.ClientSender.ProcessExpiredRetransmissions` | src/kemtls/quic_client.py:282-296 | Exactly the due packets are sent once more, with their stored bytes |
| `QuicReliability.ClientSender.SettlePacket` | src/kemtls/quic_client.py:267-272 | The number leaves both tables and is logged as settled, after which the invariant admits no further send of it |
| `QuicReliability.ResendKeepsSafe` | src/kemtls/quic_client.py:243-247 | Resending a stored packet below its budget keeps the whole-run law: at most five sends per number, equal bytes, none after it is settled |
| `QuicReliability.FirstSendKeepsSafe` | src/kemtls/quic_client.py:193-225 | So does the first send of a number just allotted |
| `QuicReliability.SettleKeepsSafe` | src/kemtls/quic_state.py:48-53 | So does settling a number |
| `QuicReliability.OneMoreRetried` | src/kemtls/quic_server.py:285-294 | One step of a retransmission pass sends the packet if and only if it may be retried |
| `QuicReliability.SealedNoncesDistinct` | src/kemtls/quic_client.py:193-206 | The nonces used under one packet key are pairwise distinct over the whole life of the sender |
| `QuicReliability.QUICConnectionState.AcknowledgePacket` | src/kemtls/quic_state.py:48-53 | The entry is removed, and the answer tells whether this is the first acknowledgement |
| `QuicReliability.QUICConnectionState.ScheduleRetransmission` | src/kemtls/quic_state.py:55-69 | Scheduling again counts as one more attempt |
| `QuicNumbers.NumbersNeverRepeat` | src/kemtls/quic_state.py:32-35 | In every run neither side sends two different packets with one number |
| `QuicNumbers.ServerSends` | src/kemtls/quic_server.py:260-269 | What the server sends for a packet carries fresh consecutive numbers and starts with the acknowledgement of that packet's number |
| `QuicNumbers.ClientSends` | src/kemtls/quic_client.py:298-308 | So does what the client sends for a packet |
| `Nonces.NonceInjective` | src/crypto/aead.py:64-91 | For one IV distinct sequence numbers below 2^64 give distinct nonces |
| `Nonces.XorCancels` | src/crypto/aead.py:91 | The exclusive or with a fixed byte is injective |
| `Nonces.NonceBytes` | src/crypto/aead.py:64-91 | The nonce is four bytes of the IV, then the other eight XORed with the sequence number in network order |
| `Nonces.XorAt` | src/crypto/aead.py:91 | The exclusive or of two bytes, bit by bit |
| `QuicPackets.DecodeOfEncode` | src/kemtls/quic_packets.py:65-120 | Decoding undoes encoding for every packet that can be encoded |
| `QuicPackets.EncodeOfDecode` | src/kemtls/quic_packets.py:88-120 | Encoding undoes decoding for every datagram that is accepted |
| `QuicPackets.AcceptedIff` | src/kemtls/quic_packets.py:88-120 | Exactly which datagrams are accepted, and at which offset each field is read |
| `QuicPackets.HeaderDeterminesNumber` | src/kemtls/quic_crypto.py:12-26 | The associated data of a packet determines its number |
| `HandshakeRun.UndisturbedAgrees` | src/kemtls/handshake.py:131-430 | With compatible configurations in either mode the undisturbed handshake raises nothing and both sides end with equal sessions |
| `HandshakeRun.CreatedCertificateIsTrusted` | src/kemtls/certs.py:15-111 | A certificate made for the identity and key is trusted inside its window, after nesting in the ServerHello, serialising and decoding |
| `HandshakeRun.ModeChosen` | src/kemtls/handshake.py:323-330 | The server chooses pdk when it can, else baseline when it can, and raises exactly when no mode is shared |
| `HandshakeRun.OfferedIff` | src/kemtls/handshake.py:131-138 | A client in auto mode offers both modes, any other its own |
| `HandshakeRun.ClientAnswersServerHello` | src/kemtls/handshake.py:140-211 | The client's state, message and partial session after the honest ServerHello |
| `HandshakeRun.ServerAnswersKeyExchange` | src/kemtls/handshake.py:351-387 | The server derives the client's secret from the ClientKeyExchange and reaches the same keys |
| `HandshakeRun.ServerAcceptsClientFinished` | src/kemtls/handshake.py:389-430 | The server accepts the client's ClientFinished and ends with the same keys |
| `HandshakeTampering.AcceptedClientFinished` | src/kemtls/handshake.py:389-400 | A server, whatever it appended and refused before, that accepts a ClientFinished made by some client holds the same handshake secret and the same first three messages as the client, up to key order and white space; they are objects |
| `HandshakeTampering.AcceptedServerFinished` | src/kemtls/handshake.py:213-235 | A client that accepts a ServerFinished made by some server, whatever that appended and refused before, agrees with it on the secret, the ClientHello and the ServerHello |
| `HandshakeTampering.ReflectedServerFinishedRejected` | src/kemtls/handshake.py:377-400 | A ServerFinished is never accepted as a ClientFinished |
| `HandshakeTampering.SessionKeysAgreeIff` | src/kemtls/handshake.py:235-267 | After agreement on the first three messages the session keys agree exactly when the fourth messages do |
| `HandshakeTampering.SessionKeysSeparated` | src/kemtls/handshake.py:239-265 | The two directions never share a write key and the two binding ids differ, unless derivations that differ only in their label collide |
| `HandshakeTampering.HonestMeetsPremises` | src/kemtls/handshake.py:269-400 | Both sides of an undisturbed run meet every premise of the agreement results |
| `HandshakeTampering.ClientBecomesKeyed` | src/kemtls/handshake.py:140-211 | Whatever bytes a client accepts as ServerHello, its state is keyed over its own transcript |
| `HandshakeTampering.ServerBecomesKeyed` | src/kemtls/handshake.py:316-387 | So is a server's whose first ClientHello and first ClientKeyExchange were accepted |
| `HandshakeTampering.FinishedKeepsKeyed` | src/kemtls/handshake.py:213-281 | No finished message takes a keyed state away |
| `HandshakeTampering.ServerFinishedIff` | src/kemtls/handshake.py:213-267 | A ServerFinished is accepted, appended and turned into session keys exactly when it carries the MAC over the first two messages; otherwise nothing changes |
| `HandshakeTampering.ClientFinishedIff` | src/kemtls/handshake.py:389-430 | A ClientFinished is appended exactly when it carries the MAC over the first three messages; otherwise nothing changes |
| `HandshakeTampering.ServerHelloIff` | src/kemtls/handshake.py:140-211 | A client proceeds from a ServerHello exactly when it accepts keys of the right sizes from it and it carries a session id; what it appends in each case |
| `QuicTampering.TranscriptShape` | src/kemtls/quic_server.py:91-198 | After any list of packets, accepted or refused, the transcript is: refused messages, an accepted ClientHello and its answer, refused messages, an accepted ClientKeyExchange and its answer, further JSON |
| `QuicTampering.KeysAreOverTranscript` | src/kemtls/quic_server.py:91-198 | After any list of packets a server that has keys has appended nothing but JSON, and its MAC keys are over the first two messages of its transcript |
| `PollutedServer.ClientIsMade` | src/kemtls/handshake.py:140-211 | Any accepted ServerHello leaves the client with the messages, secret and keys that agreement is about |
| `PollutedServer.FinishedKeepsMade` | src/kemtls/handshake.py:213-281 | No finished message, accepted or refused, takes these from the client |
| `PollutedServer.AgreementShape` | src/kemtls/handshake.py:316-400 | A server that agrees with a client on secret and messages either appended nothing it refused before its ClientKeyExchange, or refused exactly the three messages that the client holds |
| `PollutedServer.EstablishedAgrees` | src/kemtls/quic_server.py:187-198 | Whatever packets came, a server that establishes itself over a client's ClientFinished agrees with that client, and one of these two cases holds |
| `PollutedServer.UnseenKeyAgrees` | src/kemtls/quic_server.py:187-198 | When no message refused before carried the server's ephemeral key, only the first case is left: a server polluted by refused messages is never established over a client's ClientFinished |
| `PredictedKey.PredictedKeyAccepted` | src/kemtls/quic_server.py:105-112 | When the ephemeral key is known beforehand the second case happens: a run of packets with three refused messages after which the server is established |
| `PredictedKey.ClientAccepts` | src/kemtls/handshake.py:140-211 | The client of that run accepts what it is sent and is in the state whose ClientFinished the server accepts |
| `HandshakeObjects.ClientHandshake.ProcessServerHello` | src/kemtls/handshake.py:140-211 | The handler appends before it checks, and ends in the state of the specification |
| `HandshakeObjects.ClientHandshake.ProcessServerFinished` | src/kemtls/handshake.py:213-267 | The handler checks before it appends, and ends in the state of the specification |
| `HandshakeObjects.ClientHandshake.ClientFinished` | src/kemtls/handshake.py:269-281 | The MAC is over the first three messages |
| `HandshakeObjects.ServerHandshake.ProcessClientHello` | src/kemtls/handshake.py:316-349 | The handler appends before it negotiates |
| `HandshakeObjects.ServerHandshake.ProcessClientKeyExchange` | src/kemtls/handshake.py:351-387 | The handler appends before it decapsulates |
| `HandshakeObjects.ServerHandshake.VerifyClientFinished` | src/kemtls/handshake.py:389-430 | The handler checks before it appends, and returns the session |
| `Handshake.AcceptsHelloIff` | src/kemtls/handshake.py:148-181 | For every decoded ServerHello and all keys: it is accepted with these keys exactly when it carries the version and the ephemeral key, and the long-term key is vouched for by a certificate that the CA signed for the expected identity, valid now, or by an entry of the client's own store for that identity |
| `Handshake.ResolvesIff` | src/kemtls/pdk.py:86-110 | A pre-distributed key is resolved exactly when it is an entry of the store for that identity, under the named key id or as the identity's only one |
| `Handshake.ChoosesIff` | src/kemtls/handshake.py:323-330 | Whatever value the modes of a ClientHello decode to: which mode the server chooses, and when none |
| `Handshake.SessionKeysAre` | src/kemtls/handshake.py:235-265 | Each key, IV, exporter secret and binding id, as HMACs of explicit bytes |
| `Certificates.CreatedValidatesIff` | src/kemtls/certs.py:15-111 | A created certificate, serialised and decoded, validates to its key exactly inside its window and for its own subject |
| `Certificates.ValidatesIff` | src/kemtls/certs.py:59-111 | For every decoded value: it validates to a key exactly when its signature verifies under the CA key over the canonical bytes of all other entries, the time is in its window, its use is kemtls, its subject is the expected identity, and it carries that key |
| `Certificates.WithoutReads` | src/kemtls/certs.py:85-86 | What is signed has every entry but the signature as it is |
| `Certificates.NormalWithout` | src/kemtls/certs.py:85-91 | Taking out the signature and normalising commute, so the signed body is the verified body |
| `KeySchedule.ExpandPython` | src/crypto/key_schedule.py:154-169 | For every length up to 8160 the loop returns the first bytes of T(1) T(2) ... of section 2.3 of RFC 5869, with counters 1 to 255 |
| `KeySchedule.ExpandRust` | rust/kemtls_core/src/crypto_ops.rs:23-47 | The Rust loop agrees up to 8128 bytes and refuses from 8129 on |
| `KeySchedule.ExpandChain` | src/crypto/key_schedule.py:154-169 | Each full block of the output is the HMAC of the block before it, the info and its number (section 2.3 of RFC 5869) |
| `KeySchedule.ExpandPrefix` | src/crypto/key_schedule.py:154-169 | A shorter output is the start of a longer one |
| `KeySchedule.DeriveIs` | src/crypto/key_schedule.py:24-42 | A derived secret as one HMAC of explicit bytes, the label prefix spelled out |
| `KeySchedule.FinishedKeysAre` | src/crypto/key_schedule.py:75-104 | The two MAC keys from the handshake secret and the hash of the first two messages |
| `KeySchedule.LabelInfoInjective` | src/crypto/key_schedule.py:34-41 | The label encoding is injective in length, label and context |
| `KeySchedule.ExpandLabel` | src/crypto/key_schedule.py:24-42 | Defined exactly for lengths 1 to 8160, labels and contexts that fit, for any bytes as label |
| `KeySchedule.DeriveDetermines` | src/crypto/key_schedule.py:75-120 | Equal derived secrets come from equal secret, label and context when the MAC does not collide on them |
| `KeySchedule.LabelTextsDistinct` | src/crypto/key_schedule.py:80-120 | The labels of the derivation chain are pairwise distinct |
| `Primitives.CorrectSuiteExists` | src/crypto/ml_dsa.py:39-63 | The correctness laws assumed of the primitives can be met together |
| `KeySchedule.DeriveHandshakeSecret` | src/crypto/key_schedule.py:60-72 | The loop over the shared secrets extracts over their concatenation |
| `Messages.RoundTrip` | src/utils/serialization.py:51-125 | Decoding an encoded message gives it with every bytes value replaced by its base64url text |
| `Messages.SerializeInjective` | src/utils/serialization.py:29-48 | Two messages have the same bytes exactly when they have the same normal form |
| `Messages.InsertionOrderIrrelevant` | src/utils/serialization.py:37-42 | Equal dictionaries have equal bytes, whatever their insertion order |
| `Messages.TranscriptDeterminesMessages` | src/crypto/key_schedule.py:147-151 | The concatenation of messages with no length prefix determines the list of decoded messages |
| `Messages.CanonicalTranscriptDeterminesBytes` | src/crypto/key_schedule.py:45-57 | For canonical messages it determines the bytes of each |
| `Messages.BoundarySpaceIsInvisible` | src/crypto/key_schedule.py:147-151 | Without canonical form it does not: white space between messages can be moved across the boundary |
| `Messages.NumbersRunTogether` | src/kemtls/handshake.py:224-232 | Without objects the concatenation does not even determine the values: two lists of numbers with one concatenation |
| `Utf8.RoundTrip` | src/utils/serialization.py:51-125 | Decoding UTF-8 undoes encoding for every text (section 3 of RFC 3629) |
| `Utf8.DecodeOfConcat` | src/utils/serialization.py:51-125 | Decoding a concatenation of two texts concatenates them |
| `Messages.ScanValueExtends` | src/utils/serialization.py:120-125 | A value is scanned the same whatever follows it: the encodings are prefix-free |
| `Messages.DeserializedIsMessage` | src/utils/serialization.py:120-125 | Whatever decodes has distinct keys in every dictionary |
| `CanonicalJson.SameMessageNormal` | src/utils/serialization.py:37-42 | Messages equal up to key order have one normal form |
| `CanonicalJson.GetOfNormal` | src/utils/serialization.py:120-123 | Reading a key of the normal form reads the normalised value of that key |
| `CanonicalJson.NormalIdempotent` | src/utils/serialization.py:44-48 | Normalising twice is normalising once |
| `JsonText.ScanWritten` | src/utils/serialization.py:115-123 | Every written value is scanned back, with whatever follows it left over |
| `JsonText.ScanWrittenChars` | src/utils/serialization.py:115-123 | Escaping is undone for every character |
| `HandshakeMessages.RustClientHelloAgreesIff` | rust/kemtls_core/src/handshake_ops.rs:8-25 | The hand-written ClientHello equals the canonical one exactly when the strings are below DEL |
| `HandshakeMessages.RustClientKeyExchangeAgrees` | rust/kemtls_core/src/handshake_ops.rs:27-40 | The hand-written ClientKeyExchange equals the canonical one for all ciphertexts |
| `HandshakeMessages.RustFinishedAgrees` | rust/kemtls_core/src/handshake_ops.rs:42-53 | So does the hand-written Finished message |
| `Base64Url.RoundTrip` | src/utils/encoding.py:59-110 | Decoding undoes encoding for every byte string |
| `Base64Url.EncodeInjective` | src/utils/encoding.py:59-64 | Distinct byte strings have distinct texts |
| `Base64Url.DigitsAre` | src/utils/encoding.py:59-64 | The alphabet of base64url (table 2 of RFC 4648) |
| `Base64Url.EncodedGroup` | src/utils/encoding.py:59-64 | Each group of three bytes is one 24-bit number, written as four digits, high bits first |
| `Base64Url.EncodedDigits` | src/utils/encoding.py:59-64 | The text has the digit of each 6-bit value, in order |
| `Base64Url.DecodedTextIsCanonicalIff` | src/utils/encoding.py:95-110 | A decoded text re-encodes to itself exactly without trailing newline and leftover bits |
| `Base64Url.FromSextetsDefined` | src/utils/encoding.py:101-110 | Joining fails exactly on a lone last character |
| `RecordLayer.DeliversPrefix` | src/kemtls/record_layer.py:98-138 | However much of the stream arrives, the receiver delivers a prefix of the plaintexts in order, and all of them for the whole stream |
| `RecordLayer.TamperedDeliversPrefix` | src/kemtls/record_layer.py:111-128 | Whatever bytes arrive instead of the stream, what is delivered is a prefix of what was sent, when no ciphertext that opens is a forgery |
| `RecordLayer.RecordIs` | src/kemtls/record_layer.py:98-109 | When a record is made, and its bytes |
| `RecordLayer.SeqCountsDelivered` | src/kemtls/record_layer.py:111-128 | The number expected next is the first one plus the number of records delivered |
| `RecordLayer.ReceiveAll` | src/kemtls/record_layer.py:111-128 | Receiving from the object until it raises delivers what the stream delivers, however the socket splits it, and leaves that number |
| `RecordLayer.SendAllRecords` | src/kemtls/record_layer.py:98-109 | Sending plaintexts one after another through the object puts the stream of their records on the wire, and logs the numbers sealed with |
| `RecordLayer.OtherNumberRejected` | src/kemtls/record_layer.py:113-118 | A record with another sequence number is never delivered, nor anything after it |
| `RecordLayer.KEMTLSRecordLayer.RecvRecord` | src/kemtls/record_layer.py:111-128 | However the socket splits the stream the result is the one for the stream as a whole |
| `RecordLayer.Socket.ReadNBytes` | src/kemtls/record_layer.py:130-138 | Exactly n bytes, or an error at the end of the stream |
| `RecordLayer.KEMTLSRecordLayer.SendRecord` | src/kemtls/record_layer.py:98-109 | The number is stepped only after the socket took the record |
| `RecordLayer.NoncesDistinctIff` | src/kemtls/record_layer.py:98-109 | The nonces under one key are pairwise distinct exactly when nothing more is sealed after a failed send |
| `RecordLayer.ParseOfFrame` | src/kemtls/record_layer.py:149-162 | Parsing undoes framing |
| `RecordLayer.FrameOfParse` | src/kemtls/record_layer.py:153-162 | Framing undoes parsing |
| `RecordLayer.ReceiveRecord` | src/kemtls/record_layer.py:111-128 | A sealed record followed by anything is received as its plaintext, and the rest is left |
| `RecordLayer.ReceivePartial` | src/kemtls/record_layer.py:130-138 | Of a record that is cut off nothing is delivered |
| `TcpSession.NextOfFramed` | src/kemtls/tcp_transport.py:109-126 | A framed handshake message is read back whole, whatever follows |
| `TcpSession.NextOfPart` | src/kemtls/tcp_transport.py:109-126 | Of a framed message that is cut off nothing is taken |
| `TcpSession.RecvHandshake` | src/kemtls/tcp_transport.py:116-126 | However the socket splits the stream, the next message and the rest are those of the stream as a whole |
| `TcpSession.HandleApplicationSession` | src/kemtls/tcp_transport.py:16-38 | The session loop handles what the specification says for the stream, and sends exactly the records of the application's answers, in order; it ends early exactly when there are answers that cannot be sent, after those before and at most part of the next |
| `TcpSession.RepliesAnswerRequests` | src/kemtls/tcp_transport.py:26-38 | End to end, whatever part of either stream arrives: the k-th plaintext the client receives is the application's answer to its k-th request |
| `TcpSession.ServeIsServeList` | src/kemtls/tcp_transport.py:26-38 | For every stream at all, the server handles what the record layer delivers of it as if it had the list |
| `TcpSession.ServeOfStream` | src/kemtls/tcp_transport.py:26-38 | Through the record layer the server handles the requests as if it had their list |
| `TcpSession.ServesUntilClose` | src/kemtls/tcp_transport.py:36-38 | Requests built to keep the connection are served in order and once each, up to and with the first that was not |
| `TcpSession.BuiltAsks` | src/kemtls/tcp_transport.py:251-267 | A built request parses, and asks to close exactly when not built to keep the connection |
| `TcpSession.AsksToCloseIff` | src/kemtls/tcp_transport.py:36-38 | Any request asks to close exactly when its connection header is close, in any case |
| `Http.ParsePython` | src/kemtls/_http_bridge.py:22-53 | The loop over split lines computes the specified request or rejects |
| `HttpCursor.ParseRust` | rust/kemtls_core/src/http_ops.rs:10-79 | For an ASCII request line and header block the cursor parser gives the same result, or both reject |
| `HttpCursor.HeadersStep` | rust/kemtls_core/src/http_ops.rs:46-68 | One turn of the cursor is one line of the split |
| `HttpCursor.SameHeader` | rust/kemtls_core/src/http_ops.rs:56-66 | Decode then trim equals strip then decode on ASCII lines |
| `HttpBuild.Build` | src/kemtls/tcp_transport.py:251-267 | The loop builds the specified bytes, or raises on non-ASCII text |
| `HttpRoundTrip.ParseOfBuild` | src/kemtls/tcp_transport.py:251-267 | Parsing a built request returns method, path, HTTP/1.1, the header map and the exact body, blank lines in the body included |
| `HttpRoundTrip.BuiltHeaders` | src/kemtls/tcp_transport.py:259-266 | Host and Connection from the arguments, Content-Length added when absent, else the last value given for each name |
| `HttpRoundTrip.ParsedHeaders` | src/kemtls/_http_bridge.py:36-41 | What is read under a name is exactly that |
| `HttpRoundTrip.BodyOfJoined` | src/kemtls/_http_bridge.py:43-45 | The body starts after the head, wherever line ends occur in it |
| `Splitting.SplitOfJoin` | src/kemtls/_http_bridge.py:28-32 | Splitting undoes joining for parts without the separator |
| `Splitting.JoinOfSplit` | src/oidc/jwt_handler.py:224-228 | Joining undoes splitting |
| `RefreshTokens.FamiliesHaveOneLive` | src/oidc/refresh_store.py:48-117 | In every interleaving each family has at most one unused, unrevoked record |
| `RefreshTokens.ConsumedOnce` | src/oidc/refresh_store.py:48-62 | No token is accepted twice, whatever happens in between |
| `RefreshTokens.ConsumedIff` | src/oidc/refresh_store.py:48-62 | A token is accepted exactly when it is known, neither revoked nor used, and not yet expired; then it is marked used at that time, and nothing else changes |
| `RefreshTokens.IssueIff` | src/oidc/refresh_store.py:32-46 | What the store takes, the record it then has, and that a refusal leaves it as it is |
| `RefreshTokens.RotateIff` | src/oidc/refresh_store.py:64-85 | Exactly when a rotation returns a token, and what it does otherwise |
| `RefreshTokens.IssuedIsAcceptedIff` | src/oidc/refresh_store.py:32-46 | An issued token is accepted at every time before its expiry and at none from then on |
| `RefreshTokens.RotatedIsAcceptedIff` | src/oidc/refresh_store.py:64-85 | So is the token a rotation returns, until the expiry asked for; it stands for the same subject, client and family, and the old token is accepted no more |
| `RefreshTokens.RevokeIff` | src/oidc/refresh_store.py:87-95 | Revoking ends the token's family and no other, and tells whether the token was known |
| `RefreshTokens.ReuseEndsTheFamily` | src/oidc/refresh_store.py:57-59 | After an unexpired used token is presented again no token of its family, present or later, is accepted |
| `RefreshTokens.FamilyEndsIff` | src/oidc/refresh_store.py:48-62 | Presenting a token ends a family with other unrevoked records exactly when the token is unexpired and used |
| `RefreshTokens.ExpiredReuseSparesTheFamily` | src/oidc/refresh_store.py:54-56 | Presenting an expired token changes no other record |
| `RefreshTokens.RunPersists` | src/oidc/refresh_store.py:48-117 | Records never disappear, never become unused or unrevoked, and keep owner, family and expiry |
| `RefreshTokens.StepKeepsDead` | src/oidc/refresh_store.py:64-95 | A family whose records are all revoked stays so |
| `RefreshTokens.StepKeepsOneLive` | src/oidc/refresh_store.py:64-117 | Every operation keeps at most one live record in a family |
| `RefreshTokenObjects.RefreshTokenStore.ConsumeToken` | src/oidc/refresh_store.py:48-62 | The record object is updated in place as specified, and returned |
| `RefreshTokenObjects.RefreshTokenStore.RevokeMembers` | src/oidc/refresh_store.py:92-94 | The loop revokes the records of the family and no others |
| `RefreshTokenObjects.RefreshTokenStore.RevokeFamily` | src/oidc/refresh_store.py:87-95 | As specified on the whole store |
| `RefreshTokenObjects.RefreshTokenStore.RotateToken` | src/oidc/refresh_store.py:64-85 | The new record joins the family of the record consumed |
| `RefreshTokenObjects.RefreshTokenStore.IssueToken` | src/oidc/refresh_store.py:32-46 | A new family, after the input checks |
| `TokenRuns.SuccessNeedsAuthorization` | src/oidc/token_endpoints.py:128-174 | A code answered with tokens was issued by an earlier request for the same client and a redirect URI registered for it, has not expired, and the verifier matches its S256 challenge (section 4.6 of RFC 7636) |
| `TokenRuns.CodeYieldsOnce` | src/oidc/token_endpoints.py:363-371 | After any attempt that reached the store with a code no request with it is answered with tokens |
| `TokenRuns.AttemptBurnsCode` | src/oidc/token_endpoints.py:136-152 | An attempt that reaches the store removes the code, whatever is answered |
| `TokenRuns.GoneForGood` | src/oidc/auth_endpoints.py:32-33 | A code that was drawn and is gone never comes back |
| `TokenRuns.CodesAreIssued` | src/oidc/auth_endpoints.py:76-107 | Every code in the store was issued by an earlier request that passed every check |
| `TokenRuns.RefreshRunsOnSameBinding` | src/oidc/token_endpoints.py:206-218 | A refresh answered with tokens runs on a session whose refresh binding id has the digest of that of the session that redeemed the original code, for the same client |
| `TokenRuns.FamilyKeepsOwner` | src/oidc/token_endpoints.py:328-334 | A family keeps one subject, one client and one binding for its whole life |
| `TokenRuns.RecordsHaveOrigin` | src/oidc/token_endpoints.py:314-334 | Every record goes back to the redemption that started its family |
| `TokenRuns.EndpointsKeepOneLive` | src/oidc/token_endpoints.py:176-218 | Through the endpoints, too, each family has at most one live token |
| `TokenRuns.ReuseStopsRefreshing` | src/oidc/token_endpoints.py:201-203 | After a used token is presented again no refresh in its family is answered with tokens |
| `TokenRuns.RefreshTokenYieldsOnce` | src/oidc/token_endpoints.py:214-223 | A refresh token yields at most one token response |
| `TokenRuns.StillUsableIff` | src/oidc/token_endpoints.py:193-218 | A live token is still usable after a request exactly when the request did not reach rotation |
| `TokenRuns.BadProofSpends` | src/oidc/token_endpoints.py:214-245 | A proof that does not verify is answered with an error, and the token is spent |
| `TokenRuns.RotationSpends` | src/oidc/token_endpoints.py:212-218 | A request that reaches rotation spends its token and gives the family its next one |
| `TokenRuns.IssuedTokenAcceptedIff` | src/oidc/token_endpoints.py:225-253 | An access token made on one session is accepted by userinfo on another exactly in time, for matching issuer and audience, and when the binding ids have one digest |
| `TokenRuns.RedemptionToken` | src/oidc/token_endpoints.py:284-342 | A successful redemption answers with the access token for the code's user, client and scope, the refresh token drawn, and that scope |
| `TokenFlow.FlowSucceeds` | src/oidc/token_endpoints.py:53-342 | On sessions with binding ids, an acceptable authorize request leads to tokens, and their refresh token to new ones, as often as one likes, each refresh within the lifetime of the token it presents |
| `TokenFlow.RenewalsSucceed` | src/oidc/token_endpoints.py:176-260 | From any state with a good refresh token: a chain of any number of refreshes, each in time, is answered with tokens every time |
| `TokenRuns.StoreStep` | src/oidc/token_endpoints.py:193-223 | Every request is one operation of the refresh-token store, or none |
| `TokenRuns.AuthorizedIff` | src/oidc/auth_endpoints.py:64-107 | An authorize request yields the code exactly when it passes every check; the code's record is the request's |
| `TokenRuns.AuthorizeRefusal` | src/oidc/auth_endpoints.py:64-107 | Which refusal an authorize request gets |
| `TokenEndpoint.ConfirmationIff` | src/oidc/token_endpoints.py:225-253 | Which confirmation a token gets: without a proof that of the session's id, with one that of a key it proves for the token endpoint, or none |
| `TokenRuns.RedeemSucceedsIff` | src/oidc/token_endpoints.py:98-174 | Exactly when a redemption is answered with tokens |
| `TokenRuns.RefreshSucceedsIff` | src/oidc/token_endpoints.py:176-260 | Exactly when a refresh is answered with tokens |
| `TokenRuns.RedeemError` | src/oidc/token_endpoints.py:98-174 | Which error a failed redemption is answered with |
| `TokenRuns.RefreshError` | src/oidc/token_endpoints.py:176-260 | Which error a failed refresh is answered with |
| `TokenClaims.RedeemedSpeaksForTheUser` | src/oidc/token_endpoints.py:284-342 | In every run a token that a code yielded, wherever it is accepted, speaks of the user logged in at the authorize request, for its client and scope, from the redemption on and for the configured lifetime |
| `TokenClaims.RefreshedSpeaksForTheUser` | src/oidc/token_endpoints.py:225-253 | So does one that a refresh yielded, of the user at whose authorize request its family began |
| `TokenRuns.RefreshToken` | src/oidc/token_endpoints.py:206-260 | A refresh answered with tokens answers with an access token for the record's user and client, on the active session, the refresh token drawn, and the scope openid |
| `TokenEndpointObjects.Endpoints.HandleCodeGrant` | src/oidc/token_endpoints.py:98-174 | The handler on the store objects does what the specification says |
| `TokenEndpointObjects.Endpoints.HandleRefreshGrant` | src/oidc/token_endpoints.py:176-260 | The handler, which shares record objects with the store, does what the specification says |
| `TokenEndpointObjects.Endpoints.HandleAuthorizeRequest` | src/oidc/auth_endpoints.py:64-107 | The handler on the code store does what the specification says |
| `TokenEndpointObjects.AuthorizationCodeStore.ConsumeCode` | src/oidc/auth_endpoints.py:32-33 | A code is taken out of the store when it is read |
| `Userinfo.AcceptedIff` | src/oidc/userinfo_endpoints.py:46-95 | An exporter-bound access token is accepted on a session exactly when it has not expired, issuer and audience match and the binding ids of the two sessions have one digest; otherwise the answer says which check failed |
| `Userinfo.SameBindingIff` | src/oidc/session_binding.py:156-163 | Where the digest tells two ids apart, one digest means one id |
| `Userinfo.TextIdsAgreeIff` | src/oidc/session_binding.py:198-203 | For text ids, in any characters, the encoded ids agree exactly when the texts do |
| `Userinfo.PopAcceptedIff` | src/oidc/session_binding.py:140-155 | A key-bound token is accepted exactly when it is valid and the proof over the active session proves that key |
| `Userinfo.IssuedTokenIsValidIff` | src/oidc/jwt_handler.py:167-177 | An issued token is valid exactly while it has not expired and for the issuer and audience it names |
| `Userinfo.RegisteredIff` | src/oidc/jwt_handler.py:207-221 | The registered claims of an issued token hold exactly in time and for matching issuer and audience |
| `Jwt.SignedVerifies` | src/oidc/jwt_handler.py:54-122 | A signed token verifies and gives back its claims, through JSON, base64url, the three-part split and the signature (section 7.1 of RFC 7515) |
| `Jwt.SplitJwtIff` | src/oidc/jwt_handler.py:224-228 | A text splits into three parts exactly when it is they, without dots, joined by two dots |
| `Jwt.VerifiesIff` | src/oidc/jwt_handler.py:77-122 | For every text: it verifies to this header and these claims exactly when it is three parts that encode them, algorithm and type are right, and the signature over the first two verifies |
| `Userinfo.AnsweredIff` | src/oidc/userinfo_endpoints.py:46-95 | For every text, by anyone, on any session: it is answered with these claims exactly when the issuer signed them, they are for now and this endpoint, name a subject, and are bound to the active session or to a key that the proof proves |
| `Userinfo.RefusedWith` | src/oidc/userinfo_endpoints.py:46-95 | Which refusal any other request is answered with |
| `Userinfo.CurrentIff` | src/oidc/jwt_handler.py:207-221 | Exactly when the registered claims hold, for all claims |
| `SessionBinding.ExporterBindingIff` | src/oidc/session_binding.py:124-163 | The confirmation claim, after JSON, verifies on a session exactly when the digests agree |
| `SessionBinding.PopBindingIff` | src/oidc/session_binding.py:140-155 | A key-bound claim verifies exactly when the presented proof proves that key |
| `SessionBinding.ProvesIff` | src/oidc/session_binding.py:98-121 | A key is taken as proved exactly when a signature with it over the message of this session, method and path verifies |
| `SessionBinding.ProofMessageDetermines` | src/oidc/session_binding.py:47-59 | One proof message is for one binding id, method and path |
| `SessionBinding.ProofNames` | src/oidc/session_binding.py:47-59 | Case of the method and space before the path do not matter; absent ones are GET and the root |
| `SessionBinding.BindingIff` | src/oidc/session_binding.py:124-163 | For all claims: they verify exactly when they name the digest of this session's id or a key that is proved |
| `SessionBinding.JwkIff` | src/crypto/ml_dsa.py:82-101 | Which JWKs are accepted, and with which key |
| `SessionBinding.RefreshMetaIff` | src/oidc/session_binding.py:180-191 | For all metadata: it verifies exactly when it names the method and the digest of this session's refresh id |
| `SessionBinding.RefreshBindingIff` | src/oidc/session_binding.py:166-191 | Refresh metadata of one session verifies on another exactly when the digests agree |
| `SessionBinding.VerifiedIsRebuilt` | src/oidc/session_binding.py:180-191 | Metadata that verifies is what the active session would get, so rotation keeps it |
| `SessionBinding.JwkRoundTrip` | src/crypto/ml_dsa.py:64-101 | A public key survives the JWK and JSON |
| `BoundTokens.AcceptedOverHandshakeIff` | src/kemtls/exporter.py:22-47 | An access token issued over one completed handshake is accepted over another exactly in time, for matching issuer and audience, and when the exporter-derived ids have one digest |
| `BoundTokens.OneDigestIff` | src/kemtls/exporter.py:22-47 | One digest means one handshake secret and one transcript hash, when nothing derived from them collides |
| `BoundTokens.HandshakeSidesAreBoundAlike` | src/kemtls/handshake.py:235-267 | The two sides of an undisturbed handshake have the same ids, so a token bound on one is good on the other |

## Left out

- QuicTheorems.HandshakeSafe: safety only; an acknowledged packet whose reply is lost makes the client wait for ever, so no progress is claimed.
- QuicTheorems.HandlersActOnce: about runs in which the server's answers are sent; QuicSendFailure says exactly what happens in the two steps where sending may raise.
- QuicRequests.RequestsServedOnce: a second connect under one connection id is not covered, nor what follows CONNECTION_CLOSE.
- QuicScript.SoundFollows: runs are those in which every datagram can be encoded and sent; a packet number of 2^64 or an operating-system error while sending is not a step of the run model.
- QuicEnvironments.ModerateFits: the limit is the packet format's four-byte length; that a UDP datagram is shorter than that is not modelled.
- QuicReliability.ServerSender.RetransmitExpired: an operating-system error in the middle of a retransmission pass is not modelled.
- QuicReliability.ClientSender.ProcessExpiredRetransmissions: on the client deadlines and attempts of the two tables may differ, so only the server's tables are proved equal.
- QuicClientObject.QUICClientTransport.TransmitWithRetry: arrivals are a finite list, at whose end the wait times out; which stored packets are due at a timeout is left open here and exact in QuicReliability, and so is closing the transport.
- HttpCursor.ParseRust: requests whose head is not ASCII, where the Rust parser reads UTF-8 and the Python parser rejects.
- TokenRuns.SuccessNeedsAuthorization: the `code_data` argument, which no route passes.
- Userinfo.AcceptedIff: the user claims of the answer.
- Jwt.SignedVerifies: extra headers, which no caller passes; an expiry given as text is taken as malformed, where `int` would parse it.
- Messages.DeserializedIsMessage: floating-point numbers, NaN and a lone surrogate escape such as `\ud800`, all of which Python's decoder accepts, are malformed here; claims about arbitrary received bytes are about the others.
- SessionBinding.PopBindingIff: upper-casing and trimming of the method and path are those of ASCII text.
- ML-KEM, ML-DSA, ChaCha20-Poly1305, SHA-256 and HMAC: foreign libraries, of which only correctness laws are used.
- ID tokens: signed like access tokens; their claims are thin data shaping.
- Some exception classes share one constructor: RuntimeError, struct.error and operating-system errors are ValueError here.
- Within one code grant or one store operation all clock readings are equal; the refresh grant has two.
- The legacy KEMTLSHandshake, channel and client modules, discovery, JWKS, introspection, telemetry, server factories, Flask routes and the WSGI environment.
