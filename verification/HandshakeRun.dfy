/** The undisturbed handshake: with a compatible configuration it never raises and both sides agree. */
module HandshakeRun {
  import opened Wrappers
  import opened ByteStrings
  import opened CanonicalJson
  import opened Messages
  import opened HandshakeMessages
  import opened Primitives
  import opened KeySchedule
  import opened Handshake
  import Base64Url
  import Certificates

  // ---------------------------------------------------------------------------------------------
  // Compatible configurations
  // ---------------------------------------------------------------------------------------------

  function NegotiatedMode(client: Client, server: Server): Option<string> {
    if server.pdkKeyId != "" && "pdk" in OfferedModes(client.mode) then Some("pdk")
    else if Truthy(server.cert) && "baseline" in OfferedModes(client.mode) then Some("baseline")
    else None
  }

  /** The client accepts the server's long-term key in this mode at this time. */
  predicate Trusts(c: Suite, client: Client, server: Server, mode: string, now: int)
    requires IsMessage(server.cert)
  {
    if mode == "baseline" then
      NormalIsNormal(server.cert);
      NormalIsMessage(Normal(server.cert));
      client.caPk != [] &&
      Certificates.Validate(c, Normal(server.cert), client.caPk, client.identity, now) == Ok(c.kemPublic(server.ltSk))
    else
      client.pdkStore.Some? &&
      ResolveIdentity(client.pdkStore.value, client.identity, Str(server.pdkKeyId)) == Ok(c.kemPublic(server.ltSk))
  }

  /** The server's keys are well-formed and the two sides share a mode. */
  ghost predicate ModesCompatible(c: Suite, client: Client, server: Server) {
    Correct(c) && IsMessage(server.cert) &&
    |server.ltSk| == KEM_SECRET_KEY_SIZE && |server.ephSk| == KEM_SECRET_KEY_SIZE &&
    NegotiatedMode(client, server).Some?
  }

  ghost predicate Compatible(c: Suite, client: Client, server: Server, now: int) {
    ModesCompatible(c, client, server) &&
    Trusts(c, client, server, NegotiatedMode(client, server).value, now)
  }

  // ---------------------------------------------------------------------------------------------
  // The messages and states of the undisturbed run
  // ---------------------------------------------------------------------------------------------

  function HonestServerHello(c: Suite, client: Client, server: Server): Bytes
    requires IsMessage(server.cert) && NegotiatedMode(client, server).Some?
  {
    Serialize(ServerHello(c, server, NegotiatedMode(client, server).value)).value
  }

  /** What the client reads from the honest ServerHello. */
  function HonestKeys(c: Suite, client: Client, server: Server): ServerKeys
    requires NegotiatedMode(client, server).Some?
  {
    var mode := NegotiatedMode(client, server).value;
    ServerKeys(c.kemPublic(server.ephSk), c.kemPublic(server.ltSk), Str(mode),
               if mode == "pdk" then Str(server.pdkKeyId) else Null)
  }

  function HonestSecret(c: Suite, client: Client, server: Server): Bytes {
    c.hmac(Zeros(HASH_LEN), Concat([c.kemShared(c.kemPublic(server.ephSk), client.coinsEphemeral),
                                    c.kemShared(c.kemPublic(server.ltSk), client.coinsLongterm)]))
  }

  function HonestKeyExchange(c: Suite, client: Client, server: Server): Bytes {
    Serialize(ClientKeyExchange(c.kemCiphertext(c.kemPublic(server.ephSk), client.coinsEphemeral),
                                c.kemCiphertext(c.kemPublic(server.ltSk), client.coinsLongterm))).value
  }

  /** Both sides after ClientKeyExchange: CH, SH, CKE and the secrets. */
  function KeyedState(c: Suite, client: Client, server: Server): State
    requires HashesHaveFixedSize(c) && IsMessage(server.cert) && NegotiatedMode(client, server).Some?
  {
    WithSecrets(c, State([ClientHelloBytes(client), HonestServerHello(c, client, server), HonestKeyExchange(c, client, server)],
                         None, None, None),
                HonestSecret(c, client, server))
  }

  function HonestServerFinished(c: Suite, client: Client, server: Server): Bytes
    requires HashesHaveFixedSize(c) && IsMessage(server.cert) && NegotiatedMode(client, server).Some?
  {
    Serialize(Finished("ServerFinished", ServerFinishedMac(c, KeyedState(c, client, server)))).value
  }

  function Appended(st: State, msg: Bytes): State {
    st.(transcript := st.transcript + [msg])
  }

  /** Both sides after ServerFinished. */
  function FinishedState(c: Suite, client: Client, server: Server): State
    requires HashesHaveFixedSize(c) && IsMessage(server.cert) && NegotiatedMode(client, server).Some?
  {
    Appended(KeyedState(c, client, server), HonestServerFinished(c, client, server))
  }

  function HonestClientFinished(c: Suite, client: Client, server: Server): Bytes
    requires HashesHaveFixedSize(c) && IsMessage(server.cert) && NegotiatedMode(client, server).Some?
  {
    Serialize(Finished("ClientFinished", ClientFinishedMac(c, KeyedState(c, client, server)))).value
  }

  /** The keys both sides end with. */
  function HonestSessionKeys(c: Suite, client: Client, server: Server): Keys
    requires HashesHaveFixedSize(c) && IsMessage(server.cert) && NegotiatedMode(client, server).Some?
  {
    SessionKeys(c, HonestSecret(c, client, server), TranscriptHash(c, FinishedState(c, client, server).transcript))
  }

  function HonestClientSession(c: Suite, client: Client, server: Server): Session
    requires NegotiatedMode(client, server).Some?
  {
    var keys := HonestKeys(c, client, server);
    Session(Str(server.sessionId), client.identity, keys.mode, keys.trustedKeyId, None)
  }

  // ---------------------------------------------------------------------------------------------
  // Reading back the messages
  // ---------------------------------------------------------------------------------------------

  lemma ReadMessage(message: Value)
    requires IsMessage(message) && message.Obj?
    ensures Deserialize(Serialize(message).value) == Ok(Normal(message))
    ensures Normal(message).Obj?
  {
    RoundTrip(message);
  }

  lemma ReadField(message: Value, key: string)
    requires IsMessage(message) && message.Obj?
    ensures Normal(message).Obj?
    ensures Normal(message).Get(key) == NormalOption(message.Get(key))
    ensures message.Get(key).Some? && message.Get(key).value.Bin? ==>
              DecodeBytesField(Normal(message), key) == Ok(message.Get(key).value.data)
    ensures message.Get(key).Some? && message.Get(key).value.Str? ==>
              Normal(message).Get(key) == message.Get(key)
    ensures message.Get(key).None? ==> DecodeBytesField(Normal(message), key) == Raise(TypeError)
  {
    GetOfNormal(message, key);
    if message.Get(key).Some? && message.Get(key).value.Bin? {
      Base64Url.RoundTrip(message.Get(key).value.data);
    }
    hide Base64Url.Decode, Base64Url.Encode;
  }

  lemma FinishedFields(messageType: string, mac: Bytes)
    ensures Finished(messageType, mac).Get("mac") == Some(Bin(mac))
    ensures Finished(messageType, mac).Get("type") == Some(Str(messageType))
  {
    FindAt(Finished(messageType, mac).fields, 0);
    FindAt(Finished(messageType, mac).fields, 1);
  }

  lemma KeyExchangeFields(ctEphemeral: Bytes, ctLongterm: Bytes)
    ensures ClientKeyExchange(ctEphemeral, ctLongterm).Get("ct_ephemeral") == Some(Bin(ctEphemeral))
    ensures ClientKeyExchange(ctEphemeral, ctLongterm).Get("ct_longterm") == Some(Bin(ctLongterm))
    ensures ClientKeyExchange(ctEphemeral, ctLongterm).Get("type") == Some(Str("ClientKeyExchange"))
  {
    var fields := ClientKeyExchange(ctEphemeral, ctLongterm).fields;
    FindAt(fields, 0);
    FindAt(fields, 1);
    FindAt(fields, 2);
  }

  lemma ClientHelloModes(random: string, identity: string, modes: seq<string>)
    ensures ClientHello(random, identity, modes).Get("modes") == Some(ModeList(modes))
  {
    FindAt(ClientHello(random, identity, modes).fields, 3);
  }

  lemma ServerHelloFields(c: Suite, server: Server, mode: string)
    requires IsMessage(server.cert)
    ensures var sh := ServerHello(c, server, mode);
            && sh.Get("version") == Some(Str(VERSION))
            && sh.Get("session_id") == Some(Str(server.sessionId))
            && sh.Get("mode") == Some(Str(mode))
            && sh.Get("eph_pk") == Some(Bin(c.kemPublic(server.ephSk)))
            && sh.Get("mac") == None
            && (mode == "baseline" ==> sh.Get("cert") == Some(server.cert))
            && (mode != "baseline" ==> sh.Get("key_id") == Some(Str(server.pdkKeyId)))
  {
    var fields := ServerHello(c, server, mode).fields;
    FindAt(fields, 1);
    FindAt(fields, 2);
    FindAt(fields, 3);
    FindAt(fields, 4);
    FindAt(fields, 5);
    FindNone(fields, "mac");
  }

  lemma ModeInList(modes: seq<string>, mode: string)
    ensures IsNormal(ModeList(modes)) && ModeList(modes).Arr?
    ensures Str(mode) in ModeList(modes).items <==> mode in modes
  {
    var items := ModeList(modes).items;
    if mode in modes {
      var i :| 0 <= i < |modes| && modes[i] == mode;
      assert items[i] == Str(mode);
    }
  }

  // ---------------------------------------------------------------------------------------------
  // After a key exchange, whatever its keys
  // ---------------------------------------------------------------------------------------------

  /** Either side once it holds a secret and these three messages. */
  function KeyedOver(c: Suite, ch: Bytes, sh: Bytes, cke: Bytes, secret: Bytes): State
    requires HashesHaveFixedSize(c)
  {
    WithSecrets(c, State([ch, sh, cke], None, None, None), secret)
  }

  function ServerFinishedOver(c: Suite, st: State): Bytes
    requires HashesHaveFixedSize(c) && st.serverFinKey.Some?
  {
    Serialize(Finished("ServerFinished", ServerFinishedMac(c, st))).value
  }

  function ClientFinishedOver(c: Suite, st: State): Bytes
    requires HashesHaveFixedSize(c) && st.clientFinKey.Some?
  {
    Serialize(Finished("ClientFinished", ClientFinishedMac(c, st))).value
  }

  lemma KeyedOverHas(c: Suite, ch: Bytes, sh: Bytes, cke: Bytes, secret: Bytes)
    requires HashesHaveFixedSize(c)
    ensures var st := KeyedOver(c, ch, sh, cke, secret);
            st.handshakeSecret == Some(secret) && st.clientFinKey.Some? && st.serverFinKey.Some? && st.transcript == [ch, sh, cke]
  {
  }

  function KeysAfter(c: Suite, st: State, sf: Bytes): Keys
    requires HashesHaveFixedSize(c) && st.handshakeSecret.Some?
  {
    SessionKeys(c, st.handshakeSecret.value, TranscriptHash(c, Appended(st, sf).transcript))
  }

  lemma ServerAnswersExchange(c: Suite, server: Server, ch: Bytes, sh: Bytes, cke: Bytes, secret: Bytes)
    requires HashesHaveFixedSize(c) && Deserialize(cke).Ok? && DecapsulateBoth(c, server, Deserialize(cke).value) == Ok(secret)
    ensures var st := KeyedOver(c, ch, sh, cke, secret);
            st.serverFinKey.Some? &&
            ReceiveClientKeyExchange(c, server, State([ch, sh], None, None, None), cke) ==
            (Appended(st, ServerFinishedOver(c, st)), Ok(ServerFinishedOver(c, st)))
  {
    hide DecapsulateBoth, Deserialize, WithSecrets, ServerFinishedMac, Serialize, HashesHaveFixedSize;
    KeyedOverHas(c, ch, sh, cke, secret);
    assert [ch, sh] + [cke] == [ch, sh, cke];
  }

  lemma ClientAcceptsFinished(c: Suite, ch: Bytes, sh: Bytes, cke: Bytes, secret: Bytes, session: Session)
    requires HashesHaveFixedSize(c)
    ensures var st := KeyedOver(c, ch, sh, cke, secret);
            st.serverFinKey.Some? && st.handshakeSecret.Some? &&
            var sf := ServerFinishedOver(c, st);
            ReceiveServerFinished(c, st, sf, session) == (Appended(st, sf), Ok(session.(keys := Some(KeysAfter(c, st, sf)))))
  {
    hide Deserialize, Serialize, DecodeBytesField, KeyedOver, SessionKeys, TranscriptHash, HashesHaveFixedSize;
    KeyedOverHas(c, ch, sh, cke, secret);
    FinishedDecodes("ServerFinished", ServerFinishedMac(c, KeyedOver(c, ch, sh, cke, secret)));
  }

  lemma ClientFinishes(c: Suite, ch: Bytes, sh: Bytes, cke: Bytes, secret: Bytes, sf: Bytes)
    requires HashesHaveFixedSize(c)
    ensures var st := KeyedOver(c, ch, sh, cke, secret);
            st.clientFinKey.Some? &&
            SendClientFinished(c, Appended(st, sf)) ==
            (Appended(Appended(st, sf), ClientFinishedOver(c, st)), Ok(ClientFinishedOver(c, st)))
  {
    hide Serialize, KeyedOver, TranscriptHash, HashesHaveFixedSize;
    KeyedOverHas(c, ch, sh, cke, secret);
    assert Take([ch, sh, cke] + [sf], 3) == [ch, sh, cke] == Take([ch, sh, cke], 3);
  }

  lemma ServerAcceptsFinished(c: Suite, server: Server, ch: Bytes, sh: Bytes, cke: Bytes, secret: Bytes, sf: Bytes, mode: Value)
    requires HashesHaveFixedSize(c) && Deserialize(sh).Ok? && Deserialize(sh).value.Obj?
    requires Deserialize(sh).value.Get("mode") == Some(mode)
    ensures var st := KeyedOver(c, ch, sh, cke, secret);
            st.clientFinKey.Some? && st.handshakeSecret.Some? &&
            var cf := ClientFinishedOver(c, st);
            ReceiveClientFinished(c, server, Appended(st, sf), cf) ==
            (Appended(Appended(st, sf), cf),
             Ok(Session(Str(server.sessionId), "client", mode,
                        if mode == Str("pdk") then (if server.pdkKeyId == "" then Null else Str(server.pdkKeyId)) else Null,
                        Some(KeysAfter(c, st, sf)))))
  {
    hide Deserialize, Serialize, DecodeBytesField, KeyedOver, SessionKeys, TranscriptHash, Find, HashesHaveFixedSize;
    KeyedOverHas(c, ch, sh, cke, secret);
    var st := KeyedOver(c, ch, sh, cke, secret);
    var cf := ClientFinishedOver(c, st);
    FinishedDecodes("ClientFinished", ClientFinishedMac(c, st));
    var t := [ch, sh, cke] + [sf];
    assert Take(t, 3) == [ch, sh, cke] == Take([ch, sh, cke], 3);
    assert Take(t + [cf], 4) == t;
    assert (t + [cf])[1] == sh;
  }

  lemma FinishedDecodes(messageType: string, mac: Bytes)
    ensures Deserialize(Serialize(Finished(messageType, mac)).value).Ok?
    ensures var message := Deserialize(Serialize(Finished(messageType, mac)).value).value;
            && message.Obj? && message.Get("type") == Some(Str(messageType))
            && DecodeBytesField(message, "mac") == Ok(mac)
  {
    var message := Finished(messageType, mac);
    ReadMessage(message);
    FinishedFields(messageType, mac);
    ReadField(message, "type");
    ReadField(message, "mac");
  }

  // ---------------------------------------------------------------------------------------------
  // One step at a time
  // ---------------------------------------------------------------------------------------------

  lemma ModeChosen(client: Client, server: Server)
    ensures ChooseMode(server, ModeList(OfferedModes(client.mode))) ==
            if NegotiatedMode(client, server).Some? then Ok(NegotiatedMode(client, server).value) else Raise(ValueError)
  {
    var modes := OfferedModes(client.mode);
    ModeInList(modes, "pdk");
    ModeInList(modes, "baseline");
    hide OfferedModes, ModeList;
  }

  /** A client in auto mode offers both modes, any other its own. */
  lemma OfferedIff(mode: string, m: string)
    ensures m in OfferedModes(mode) <==> if mode == "auto" then m == "baseline" || m == "pdk" else m == mode
  {
  }

  /** The ClientHello decodes to the modes the client offers. */
  lemma ClientHelloDecodes(client: Client)
    ensures Deserialize(ClientHelloBytes(client)).Ok?
    ensures var ch := Deserialize(ClientHelloBytes(client)).value;
            ch.Obj? && ch.Get("modes") == Some(ModeList(OfferedModes(client.mode)))
  {
    var modes := OfferedModes(client.mode);
    var message := ClientHello(client.random, client.identity, modes);
    ReadMessage(message);
    ReadField(message, "modes");
    ClientHelloModes(client.random, client.identity, modes);
    ModeInList(modes, "");
    NormalIdempotent(ModeList(modes));
  }

  lemma ServerAnswersClientHello(c: Suite, client: Client, server: Server)
    requires ModesCompatible(c, client, server)
    ensures var ch, sh := ClientHelloBytes(client), HonestServerHello(c, client, server);
            ReceiveClientHello(c, server, FRESH, ch) == (State([ch, sh], None, None, None), Ok(sh))
  {
    ClientHelloDecodes(client);
    ModeChosen(client, server);
    hide ClientHelloBytes, ModeList, OfferedModes, Deserialize, Serialize, ServerHello;
    var ch := ClientHelloBytes(client);
    var sh := HonestServerHello(c, client, server);
    assert [] + [ch] == [ch] && [ch] + [sh] == [ch, sh];
  }

  lemma ServerHelloDecodes(c: Suite, client: Client, server: Server)
    requires ModesCompatible(c, client, server)
    ensures Deserialize(HonestServerHello(c, client, server)).Ok?
    ensures var sh := Deserialize(HonestServerHello(c, client, server)).value;
            && sh.Obj? && IsMessage(sh)
            && sh.Get("version") == Some(Str(VERSION))
            && sh.Get("session_id") == Some(Str(server.sessionId))
            && sh.Get("mode") == Some(Str(NegotiatedMode(client, server).value))
            && DecodeBytesField(sh, "eph_pk") == Ok(c.kemPublic(server.ephSk))
            && DecodeBytesField(sh, "mac") == Raise(TypeError)
            && (NegotiatedMode(client, server).value == "baseline" ==> sh.Get("cert") == Some(Normal(server.cert)))
            && (NegotiatedMode(client, server).value != "baseline" ==> sh.Get("key_id") == Some(Str(server.pdkKeyId)))
  {
    var mode := NegotiatedMode(client, server).value;
    var message := ServerHello(c, server, mode);
    ReadMessage(message);
    DeserializedIsMessage(Serialize(message).value);
    ServerHelloFields(c, server, mode);
    hide ServerHello, Serialize, Deserialize, Normal, DecodeBytesField, Find;
    ReadField(message, "version");
    ReadField(message, "session_id");
    ReadField(message, "mode");
    ReadField(message, "eph_pk");
    ReadField(message, "mac");
    ReadField(message, "cert");
    ReadField(message, "key_id");
  }

  lemma ServerHelloChecks(c: Suite, client: Client, server: Server, now: int)
    requires Compatible(c, client, server, now)
    ensures var sh := Deserialize(HonestServerHello(c, client, server));
            sh.Ok? && IsMessage(sh.value) && CheckServerHello(c, client, sh.value, now) == Ok(HonestKeys(c, client, server))
  {
    ServerHelloDecodes(c, client, server);
    hide Deserialize, HonestServerHello, Certificates.Validate, ResolveIdentity, DecodeBytesField, Find, Correct, IsMessage;
  }

  lemma HonestSecretDerives(c: Suite, client: Client, server: Server)
    requires Correct(c) && |server.ltSk| == KEM_SECRET_KEY_SIZE && |server.ephSk| == KEM_SECRET_KEY_SIZE
    ensures HandshakeSecret(c, [c.kemShared(c.kemPublic(server.ephSk), client.coinsEphemeral),
                                c.kemShared(c.kemPublic(server.ltSk), client.coinsLongterm)]) ==
            Ok(HonestSecret(c, client, server))
  {
  }

  lemma ClientEncapsulates(c: Suite, client: Client, server: Server)
    requires ModesCompatible(c, client, server)
    ensures KeyExchange(c, client, HonestKeys(c, client, server)) ==
            Ok((HonestKeyExchange(c, client, server), HonestSecret(c, client, server)))
  {
    HonestSecretDerives(c, client, server);
    hide HandshakeSecret, HonestSecret, Serialize;
  }

  lemma ClientAnswersServerHello(c: Suite, client: Client, server: Server, now: int)
    requires Compatible(c, client, server, now)
    ensures ReceiveServerHello(c, client, State([ClientHelloBytes(client)], None, None, None),
                               HonestServerHello(c, client, server), now) ==
            (KeyedState(c, client, server),
             Ok((HonestKeyExchange(c, client, server), HonestClientSession(c, client, server))))
  {
    hide CheckServerHello, KeyExchange, Deserialize, ClientHelloBytes, HonestServerHello, HonestKeyExchange, HonestSecret,
         WithSecrets, Correct, Find, Trusts, DecodeBytesField;
    ServerHelloChecks(c, client, server, now);
    ServerHelloDecodes(c, client, server);
    ClientEncapsulates(c, client, server);
    var ch, sh, cke := ClientHelloBytes(client), HonestServerHello(c, client, server), HonestKeyExchange(c, client, server);
    assert [ch] + [sh] + [cke] == [ch, sh, cke];
  }

  lemma KeyExchangeDecodes(c: Suite, client: Client, server: Server)
    requires ModesCompatible(c, client, server)
    ensures Deserialize(HonestKeyExchange(c, client, server)).Ok?
    ensures var cke := Deserialize(HonestKeyExchange(c, client, server)).value;
            && cke.Obj? && cke.Get("type") == Some(Str("ClientKeyExchange"))
            && DecapsulateBoth(c, server, cke) == Ok(HonestSecret(c, client, server))
  {
    var ctE := c.kemCiphertext(c.kemPublic(server.ephSk), client.coinsEphemeral);
    var ctL := c.kemCiphertext(c.kemPublic(server.ltSk), client.coinsLongterm);
    var message := ClientKeyExchange(ctE, ctL);
    ReadMessage(message);
    KeyExchangeFields(ctE, ctL);
    ReadField(message, "type");
    ReadField(message, "ct_ephemeral");
    ReadField(message, "ct_longterm");
    HonestSecretDerives(c, client, server);
    hide HandshakeSecret, HonestSecret, Serialize, ClientKeyExchange, Normal, DecodeBytesField, Find, Deserialize;
  }

  lemma CorrectHashes(c: Suite, client: Client, server: Server)
    requires ModesCompatible(c, client, server)
    ensures HashesHaveFixedSize(c) && IsMessage(server.cert) && NegotiatedMode(client, server).Some?
  {
  }

  lemma ServerAnswersKeyExchange(c: Suite, client: Client, server: Server)
    requires ModesCompatible(c, client, server)
    ensures ReceiveClientKeyExchange(c, server,
                                     State([ClientHelloBytes(client), HonestServerHello(c, client, server)], None, None, None),
                                     HonestKeyExchange(c, client, server)) ==
            (FinishedState(c, client, server), Ok(HonestServerFinished(c, client, server)))
  {
    hide DecapsulateBoth, Deserialize, ClientHelloBytes, HonestServerHello, HonestKeyExchange, HonestSecret,
         WithSecrets, Correct, Find, ServerFinishedMac, Serialize, ReceiveClientKeyExchange;
    KeyExchangeDecodes(c, client, server);
    CorrectHashes(c, client, server);
    ServerAnswersExchange(c, server, ClientHelloBytes(client), HonestServerHello(c, client, server), HonestKeyExchange(c, client, server),
                          HonestSecret(c, client, server));
  }

  lemma KeyedHasSecrets(c: Suite, client: Client, server: Server)
    requires HashesHaveFixedSize(c) && IsMessage(server.cert) && NegotiatedMode(client, server).Some?
    ensures var st := KeyedState(c, client, server);
            && st.handshakeSecret == Some(HonestSecret(c, client, server))
            && st.clientFinKey.Some? && st.serverFinKey.Some?
            && st.transcript == [ClientHelloBytes(client), HonestServerHello(c, client, server), HonestKeyExchange(c, client, server)]
  {
  }

  lemma ClientAcceptsServerFinished(c: Suite, client: Client, server: Server)
    requires ModesCompatible(c, client, server)
    ensures ReceiveServerFinished(c, KeyedState(c, client, server), HonestServerFinished(c, client, server),
                                  HonestClientSession(c, client, server)) ==
            (FinishedState(c, client, server),
             Ok(HonestClientSession(c, client, server).(keys := Some(HonestSessionKeys(c, client, server)))))
  {
    hide Serialize, WithSecrets, SessionKeys, Correct, HonestClientSession, TranscriptHash, ReceiveServerFinished, ClientHelloBytes,
         HonestServerHello, HonestKeyExchange, HonestSecret, ServerFinishedMac;
    CorrectHashes(c, client, server);
    KeyedHasSecrets(c, client, server);
    ClientAcceptsFinished(c, ClientHelloBytes(client), HonestServerHello(c, client, server), HonestKeyExchange(c, client, server),
                          HonestSecret(c, client, server), HonestClientSession(c, client, server));
  }

  /** The transcript of the whole handshake. */
  function FullTranscript(c: Suite, client: Client, server: Server): seq<Bytes>
    requires HashesHaveFixedSize(c) && IsMessage(server.cert) && NegotiatedMode(client, server).Some?
  {
    [ClientHelloBytes(client), HonestServerHello(c, client, server), HonestKeyExchange(c, client, server),
     HonestServerFinished(c, client, server), HonestClientFinished(c, client, server)]
  }

  lemma FinishedTranscript(c: Suite, client: Client, server: Server)
    requires HashesHaveFixedSize(c) && IsMessage(server.cert) && NegotiatedMode(client, server).Some?
    ensures FinishedState(c, client, server).transcript == FullTranscript(c, client, server)[..4]
    ensures Take(FinishedState(c, client, server).transcript, 3) == KeyedState(c, client, server).transcript
    ensures Appended(FinishedState(c, client, server), HonestClientFinished(c, client, server)).transcript ==
            FullTranscript(c, client, server)
  {
    hide KeyedState, ClientHelloBytes, HonestServerHello, HonestKeyExchange, HonestServerFinished, HonestClientFinished;
    KeyedHasSecrets(c, client, server);
  }

  lemma ClientSendsFinished(c: Suite, client: Client, server: Server)
    requires ModesCompatible(c, client, server)
    ensures SendClientFinished(c, FinishedState(c, client, server)) ==
            (Appended(FinishedState(c, client, server), HonestClientFinished(c, client, server)),
             Ok(HonestClientFinished(c, client, server)))
  {
    hide Serialize, WithSecrets, Correct, SendClientFinished, ClientHelloBytes, HonestServerHello, HonestKeyExchange, HonestSecret,
         ClientFinishedMac, HonestServerFinished;
    CorrectHashes(c, client, server);
    ClientFinishes(c, ClientHelloBytes(client), HonestServerHello(c, client, server), HonestKeyExchange(c, client, server),
                   HonestSecret(c, client, server), HonestServerFinished(c, client, server));
  }

  /** The session the server ends with. */
  function HonestServerSession(c: Suite, client: Client, server: Server): Session
    requires HashesHaveFixedSize(c) && IsMessage(server.cert) && NegotiatedMode(client, server).Some?
  {
    var keys := HonestKeys(c, client, server);
    Session(Str(server.sessionId), "client", keys.mode, keys.trustedKeyId, Some(HonestSessionKeys(c, client, server)))
  }

  lemma ServerAcceptsClientFinished(c: Suite, client: Client, server: Server)
    requires ModesCompatible(c, client, server)
    ensures ReceiveClientFinished(c, server, FinishedState(c, client, server), HonestClientFinished(c, client, server)) ==
            (Appended(FinishedState(c, client, server), HonestClientFinished(c, client, server)),
             Ok(HonestServerSession(c, client, server)))
  {
    hide Serialize, Deserialize, WithSecrets, Correct, ReceiveClientFinished, ClientHelloBytes, HonestServerHello, HonestKeyExchange,
         HonestSecret, ClientFinishedMac, HonestServerFinished, SessionKeys, TranscriptHash, Find, OfferedModes, Truthy, IsMessage,
         DecodeBytesField;
    CorrectHashes(c, client, server);
    ServerHelloDecodes(c, client, server);
    KeyedHasSecrets(c, client, server);
    ServerAcceptsFinished(c, server, ClientHelloBytes(client), HonestServerHello(c, client, server), HonestKeyExchange(c, client, server),
                          HonestSecret(c, client, server), HonestServerFinished(c, client, server),
                          Str(NegotiatedMode(client, server).value));
  }

  // ---------------------------------------------------------------------------------------------
  // The whole run
  // ---------------------------------------------------------------------------------------------

  /** All five messages delivered in order; the sessions of the client and of the server. */
  function Undisturbed(c: Suite, client: Client, server: Server, now: int): Result<(Session, Session)>
    requires HashesHaveFixedSize(c) && IsMessage(server.cert)
  {
    var (c1, ch) := SendClientHello(client, FRESH);
    var (s1, sh) := ReceiveClientHello(c, server, FRESH, ch);
    var serverHello :- sh;
    var (c2, cke) := ReceiveServerHello(c, client, c1, serverHello, now);
    var keyExchange :- cke;
    var (s2, sf) := ReceiveClientKeyExchange(c, server, s1, keyExchange.0);
    var serverFinished :- sf;
    var (c3, cs) := ReceiveServerFinished(c, c2, serverFinished, keyExchange.1);
    var clientSession :- cs;
    var (c4, cf) := SendClientFinished(c, c3);
    var clientFinished :- cf;
    var (s3, ss) := ReceiveClientFinished(c, server, s2, clientFinished);
    var serverSession :- ss;
    Ok((clientSession, serverSession))
  }

  /** The parts of a session both sides must hold alike. */
  predicate SessionsAgree(a: Session, b: Session) {
    a.keys.Some? && a.keys == b.keys && a.sessionId == b.sessionId &&
    a.handshakeMode == b.handshakeMode && a.trustedKeyId == b.trustedKeyId
  }

  /**
    With compatible configurations, in either mode, the undisturbed handshake raises nothing and
    both sides end with the same keys, IVs, exporter secret, binding ids, session id and mode.
  */
  lemma UndisturbedAgrees(c: Suite, client: Client, server: Server, now: int)
    requires Compatible(c, client, server, now)
    ensures var r := Undisturbed(c, client, server, now);
            && r.Ok? && SessionsAgree(r.value.0, r.value.1)
            && r.value.0.handshakeMode == Str(NegotiatedMode(client, server).value)
  {
    hide ReceiveClientHello, ReceiveServerHello, ReceiveClientKeyExchange, ReceiveServerFinished, ReceiveClientFinished,
         SendClientFinished, KeyedState, ClientHelloBytes, HonestServerHello, HonestKeyExchange, HonestServerFinished,
         HonestClientFinished, Correct, Trusts, FinishedState, HonestSessionKeys, HonestSecret, OfferedModes, Truthy,
         HashesHaveFixedSize, IsMessage, Appended;
    ServerAnswersClientHello(c, client, server);
    ClientAnswersServerHello(c, client, server, now);
    ServerAnswersKeyExchange(c, client, server);
    ClientAcceptsServerFinished(c, client, server);
    ClientSendsFinished(c, client, server);
    ServerAcceptsClientFinished(c, client, server);
    var ch := ClientHelloBytes(client);
    assert [] + [ch] == [ch];
  }

  /** A server with a certificate that its CA made for its identity and key is trusted in baseline mode. */
  lemma CreatedCertificateIsTrusted(c: Suite, client: Client, server: Server, caSk: Bytes, issuer: string,
                                    validFrom: int, validTo: int, now: int)
    requires Correct(c) && |caSk| == SIG_SECRET_KEY_SIZE && client.caPk == c.sigPublic(caSk)
    requires Certificates.Create(c, client.identity, c.kemPublic(server.ltSk), caSk, issuer, validFrom, validTo) == Ok(server.cert)
    requires validFrom <= now <= validTo
    ensures IsMessage(server.cert) && Truthy(server.cert)
    ensures Trusts(c, client, server, "baseline", now)
  {
    Certificates.CreatedValidatesIff(c, client.identity, c.kemPublic(server.ltSk), caSk, issuer, validFrom, validTo, client.identity, now);
    hide Certificates.Create, Certificates.Validate;
  }
}
