/** The one script of messages, states and sessions that the handshake of an environment can follow. */
module QuicScript {
  import opened Wrappers
  import opened ByteStrings
  import opened CanonicalJson
  import opened Messages
  import opened HandshakeMessages
  import opened Primitives
  import opened KeySchedule
  import opened Handshake
  import opened HandshakeRun
  import opened HandshakeTampering
  import opened QuicEndpoints
  import Certificates
  import PollutedServer
  import RecordLayer

  // ---------------------------------------------------------------------------------------------
  // The keys that the client comes to trust
  // ---------------------------------------------------------------------------------------------

  /** The two sides share a mode, the primitives are correct, the server's keys well-formed. */
  ghost predicate Shared(env: Env) {
    Correct(env.c) && ModesCompatible(env.c, env.client, env.server)
  }

  function CH(env: Env): Bytes { ClientHelloBytes(env.client) }

  function SH(env: Env): Bytes
    requires Shared(env)
  { HonestServerHello(env.c, env.client, env.server) }

  function HelloValue(env: Env): (sh: Value)
    requires Shared(env)
    ensures IsMessage(sh)
  {
    ServerHelloDecodes(env.c, env.client, env.server);
    Deserialize(SH(env)).value
  }

  /** Keys that the client accepts from the ServerHello at some time, and can encapsulate to. */
  ghost predicate MayAccept(env: Env, keys: ServerKeys)
    requires Shared(env)
  {
    KeyExchange(env.c, env.client, keys).Ok? && exists now :: CheckServerHello(env.c, env.client, HelloValue(env), now) == Ok(keys)
  }

  /** Those keys, or the server's own when the client accepts none: the server's, or whichever key the client trusts. */
  ghost function TrustedKeys(env: Env): (keys: ServerKeys)
    requires Shared(env)
    ensures KeyExchange(env.c, env.client, keys).Ok?
  {
    ClientEncapsulates(env.c, env.client, env.server);
    if exists keys :: MayAccept(env, keys) then
      var keys :| MayAccept(env, keys);
      keys
    else HonestKeys(env.c, env.client, env.server)
  }

  lemma SameValidated(c: Suite, cert: Value, caPk: Bytes, identity: string, now: int, now': int)
    requires IsMessage(cert) && Certificates.Validate(c, cert, caPk, identity, now).Ok? && Certificates.Validate(c, cert, caPk, identity, now').Ok?
    ensures Certificates.Validate(c, cert, caPk, identity, now) == Certificates.Validate(c, cert, caPk, identity, now')
  {
    hide IsMessage, Find, Base64Url.Decode, Serialize;
  }

  /** Time decides whether a ServerHello is accepted, not with which keys. */
  lemma SameKeys(c: Suite, client: Client, sh: Value, now: int, now': int)
    requires IsMessage(sh) && CheckServerHello(c, client, sh, now).Ok? && CheckServerHello(c, client, sh, now').Ok?
    ensures CheckServerHello(c, client, sh, now) == CheckServerHello(c, client, sh, now')
  {
    hide Certificates.Validate, ResolveIdentity, Find, IsMessage, DecodeBytesField;
    if sh.Get("mode") == Some(Str("baseline")) {
      GetIsMessage(sh, "cert");
      SameValidated(c, ValueOr(sh.Get("cert"), Null), client.caPk, client.identity, now, now');
    }
  }

  lemma AcceptedAreTrusted(env: Env, keys: ServerKeys)
    requires Shared(env) && MayAccept(env, keys)
    ensures keys == TrustedKeys(env)
  {
    hide Shared, CheckServerHello, KeyExchange, HelloValue, HonestKeys;
    var other := TrustedKeys(env);
    var now :| CheckServerHello(env.c, env.client, HelloValue(env), now) == Ok(keys);
    var now' :| CheckServerHello(env.c, env.client, HelloValue(env), now') == Ok(other);
    SameKeys(env.c, env.client, HelloValue(env), now, now');
  }

  /** Whatever key is accepted, mode and key id are those of the ServerHello. */
  lemma AcceptedFields(env: Env, now: int)
    requires Shared(env) && CheckServerHello(env.c, env.client, HelloValue(env), now).Ok?
    ensures var keys, honest := CheckServerHello(env.c, env.client, HelloValue(env), now).value, HonestKeys(env.c, env.client, env.server);
            keys.mode == honest.mode && keys.trustedKeyId == honest.trustedKeyId
  {
    ServerHelloDecodes(env.c, env.client, env.server);
    hide Deserialize, HonestServerHello, Certificates.Validate, ResolveIdentity, DecodeBytesField, Find, Correct, IsMessage;
  }

  // ---------------------------------------------------------------------------------------------
  // The exchange, and the secret of each side
  // ---------------------------------------------------------------------------------------------

  ghost function CKE(env: Env): Bytes
    requires Shared(env)
  { KeyExchange(env.c, env.client, TrustedKeys(env)).value.0 }

  ghost function ClientSecret(env: Env): Bytes
    requires Shared(env)
  { KeyExchange(env.c, env.client, TrustedKeys(env)).value.1 }

  /** A ClientKeyExchange for any keys is decapsulated by a server with well-formed keys. */
  lemma ExchangeDecapsulates(c: Suite, client: Client, server: Server, keys: ServerKeys)
    requires KemCorrect(c) && |server.ltSk| == KEM_SECRET_KEY_SIZE && |server.ephSk| == KEM_SECRET_KEY_SIZE
    requires KeyExchange(c, client, keys).Ok?
    ensures var cke := Deserialize(KeyExchange(c, client, keys).value.0);
            cke.Ok? && cke.value.Obj? && cke.value.Get("type") == Some(Str("ClientKeyExchange")) &&
            DecapsulateBoth(c, server, cke.value).Ok?
  {
    hide Deserialize, Serialize, ClientKeyExchange, DecodeBytesField, Find, HandshakeSecret, KeyExchange, PollutedServer.KeyExchangeOf;
    PollutedServer.ExchangedKeys(c, client, keys);
    var ctE, ctL := c.kemCiphertext(keys.ephPk, client.coinsEphemeral), c.kemCiphertext(keys.ltPk, client.coinsLongterm);
    var a := PollutedServer.Accepted([], keys, ctE, ctL, []);
    PollutedServer.ExchangeReads(a);
    assert PollutedServer.KeyExchangeOf(a) == KeyExchange(c, client, keys).value.0 by { SameExchange(a); }
    PollutedServer.HashSized(c.kemDecapsulate(server.ephSk, ctE), c.kemDecapsulate(server.ltSk, ctL));
  }

  lemma SameExchange(a: PollutedServer.Accepted)
    ensures PollutedServer.KeyExchangeOf(a) == Serialize(ClientKeyExchange(a.ctEphemeral, a.ctLongterm)).value
  {
  }

  lemma SharedParts(env: Env)
    requires Shared(env)
    ensures Usable(env) && KemCorrect(env.c) && AeadCorrect(env.c) && NegotiatedMode(env.client, env.server).Some?
    ensures |env.server.ltSk| == KEM_SECRET_KEY_SIZE && |env.server.ephSk| == KEM_SECRET_KEY_SIZE
  {
    hide NegotiatedMode;
  }

  ghost function ServerSecret(env: Env): Bytes
    requires Shared(env)
  {
    SharedParts(env);
    ExchangeDecapsulates(env.c, env.client, env.server, TrustedKeys(env));
    DecapsulateBoth(env.c, env.server, Deserialize(CKE(env)).value).value
  }

  /** The two sides after the ClientKeyExchange. */
  ghost function AfterKeyExchange(env: Env): State
    requires Shared(env)
  {
    SharedParts(env);
    KeyedOver(env.c, CH(env), SH(env), CKE(env), ClientSecret(env))
  }

  ghost function ServerKeyed(env: Env): (st: State)
    requires Shared(env)
    ensures st.clientFinKey.Some? && st.serverFinKey.Some? && st.handshakeSecret.Some?
  {
    SharedParts(env);
    KeyedOverHas(env.c, CH(env), SH(env), CKE(env), ServerSecret(env));
    KeyedOver(env.c, CH(env), SH(env), CKE(env), ServerSecret(env))
  }

  /** The two states have what agreement is about: keys over their transcript, whose messages are objects. */
  lemma BothKeyed(env: Env)
    requires Shared(env)
    ensures HashesHaveFixedSize(env.c)
    ensures Keyed(env.c, AfterKeyExchange(env)) && Keyed(env.c, ServerKeyed(env)) && DecodedKeyed(env.c, ServerKeyed(env))
    ensures KeysOver(env.c, AfterKeyExchange(env)) && KeysOver(env.c, ServerKeyed(env))
  {
    hide Shared, IsObjectText, WithSecrets, KeyExchange, DecapsulateBoth, Keyed, DecodedKeyed, KeysOver, ServerSecret,
         ClientSecret, CKE, SH, ClientHelloBytes, HashesHaveFixedSize, TrustedKeys;
    SharedParts(env);
    ObjectTexts(env);
    var t := [CH(env), SH(env), CKE(env)];
    SecretsMakeKeyed(env.c, State(t, None, None, None), ClientSecret(env));
    SecretsMakeKeyed(env.c, State(t, None, None, None), ServerSecret(env));
    KeyedDecodes(env.c, ServerKeyed(env));
    KeyedHasEverything(env.c, ServerKeyed(env));
    KeyedHasEverything(env.c, AfterKeyExchange(env));
  }

  lemma ObjectTexts(env: Env)
    requires Shared(env)
    ensures IsObjectText(CH(env)) && IsObjectText(SH(env)) && IsObjectText(CKE(env))
  {
    hide IsObjectText, KeyExchange, HonestServerHello, ClientHelloBytes, HonestKeyExchange, Correct;
    HonestTextsAreObjects(env.c, env.client, env.server);
    KeyExchangeIsObject(env.c, env.client, TrustedKeys(env));
  }

  /**
    The environments of the run theorems: the sides share a mode, and should the client trust another
    key than the server's, the two sides' inputs to the ServerFinished MAC do not collide.
  */
  ghost predicate Sound(env: Env) {
    Shared(env) &&
    (BothKeyed(env);
     NoServerMacCollision(env.c, ServerKeyed(env), AfterKeyExchange(env)))
  }

  lemma SoundIsShared(env: Env)
    requires Sound(env)
    ensures Shared(env) && Usable(env) && NegotiatedMode(env.client, env.server).Some?
  {
    hide HashesHaveFixedSize, NegotiatedMode, NoServerMacCollision, IsMessage;
    SharedParts(env);
  }

  lemma TrustedEncapsulates(env: Env)
    requires Shared(env) && TrustedKeys(env) == HonestKeys(env.c, env.client, env.server)
    ensures CKE(env) == HonestKeyExchange(env.c, env.client, env.server)
    ensures ClientSecret(env) == ServerSecret(env) == HonestSecret(env.c, env.client, env.server)
  {
    hide Correct, KeyExchange, DecapsulateBoth, Deserialize, HonestKeyExchange, HonestSecret, TrustedKeys, HonestKeys, NegotiatedMode;
    ClientEncapsulates(env.c, env.client, env.server);
    KeyExchangeDecodes(env.c, env.client, env.server);
  }

  /** A client that trusts no other key is in a sound environment; no premise on the MAC is needed. */
  lemma SoundWhenTrusted(env: Env)
    requires Shared(env) && TrustedKeys(env) == HonestKeys(env.c, env.client, env.server)
    ensures Sound(env)
  {
    hide Shared, TrustedKeys, HonestKeys, KeyedOver, Derive, KeysOver, CKE, SH, ClientSecret, ServerSecret, ClientHelloBytes, Hash1;
    TrustedEncapsulates(env);
    BothKeyed(env);
  }

  // ---------------------------------------------------------------------------------------------
  // The rest of the script
  // ---------------------------------------------------------------------------------------------

  ghost function SF(env: Env): Bytes
    requires Shared(env)
  {
    SharedParts(env);
    ServerFinishedOver(env.c, ServerKeyed(env))
  }

  ghost function CF(env: Env): Bytes
    requires Shared(env)
  {
    SharedParts(env);
    ClientFinishedOver(env.c, ServerKeyed(env))
  }

  function AfterHello(env: Env): State
    requires Shared(env)
  { State([CH(env), SH(env)], None, None, None) }

  ghost function AfterFinished(env: Env): State
    requires Shared(env)
  { Appended(ServerKeyed(env), SF(env)) }

  ghost function AtEnd(env: Env): State
    requires Shared(env)
  { Appended(AfterFinished(env), CF(env)) }

  ghost function FinalKeys(env: Env): Keys
    requires Shared(env)
  {
    SharedParts(env);
    KeysAfter(env.c, ServerKeyed(env), SF(env))
  }

  function PartialSession(env: Env): Session
    requires Shared(env)
  { HonestClientSession(env.c, env.client, env.server) }

  ghost function SessionOfClient(env: Env): Session
    requires Shared(env)
  { PartialSession(env).(keys := Some(FinalKeys(env))) }

  ghost function SessionOfServer(env: Env): Session
    requires Shared(env)
  {
    Session(Str(env.server.sessionId), "client", PartialSession(env).handshakeMode, PartialSession(env).trustedKeyId, Some(FinalKeys(env)))
  }

  /** The messages, states and sessions that the handshake of one environment can produce. */
  datatype Script = Script(
    ch: Bytes, sh: Bytes, cke: Bytes, sf: Bytes, cf: Bytes,
    afterHello: State, afterKeyExchange: State, afterFinished: State, atEnd: State,
    partial: Session, clientSession: Session, serverSession: Session,
    clientKey: RecordLayer.Direction, serverKey: RecordLayer.Direction)

  ghost function ScriptOf(env: Env): Script
    requires Shared(env)
  {
    Script(CH(env), SH(env), CKE(env), SF(env), CF(env),
           AfterHello(env), AfterKeyExchange(env), AfterFinished(env), AtEnd(env),
           PartialSession(env), SessionOfClient(env), SessionOfServer(env),
           ClientDirection(SessionOfClient(env)).value, ServerDirection(SessionOfClient(env)).value)
  }

  // ---------------------------------------------------------------------------------------------
  // What the handlers do with these messages
  // ---------------------------------------------------------------------------------------------

  lemma ClientHelloStep(env: Env)
    requires Shared(env)
    ensures SendClientHello(env.client, FRESH) == (State([CH(env)], None, None, None), CH(env))
    ensures ReceiveClientHello(env.c, env.server, FRESH, CH(env)) == (AfterHello(env), Ok(SH(env)))
  {
    hide ReceiveClientHello, ClientHelloBytes, HonestServerHello, Correct, ModesCompatible;
    ServerAnswersClientHello(env.c, env.client, env.server);
    assert FRESH.transcript + [CH(env)] == [CH(env)];
  }

  /** The client either takes the keys it trusts from the ServerHello, or raises. */
  lemma ServerHelloStep(env: Env, now: int)
    requires Shared(env) && HashesHaveFixedSize(env.c)
    ensures var r := ReceiveServerHello(env.c, env.client, State([CH(env)], None, None, None), SH(env), now);
            r.1.Raise? || r == (AfterKeyExchange(env), Ok((CKE(env), PartialSession(env))))
  {
    hide CheckServerHello, KeyExchange, Deserialize, HonestServerHello, Correct, DecodeBytesField, Find, IsMessage, NegotiatedMode,
         ClientHelloBytes, WithSecrets, TrustedKeys, HonestKeys, HashesHaveFixedSize;
    ServerHelloDecodes(env.c, env.client, env.server);
    var checked := CheckServerHello(env.c, env.client, HelloValue(env), now);
    if checked.Ok? {
      AcceptedFields(env, now);
      if KeyExchange(env.c, env.client, checked.value).Ok? {
        AcceptedAreTrusted(env, checked.value);
        assert [CH(env)] + [SH(env)] + [CKE(env)] == [CH(env), SH(env), CKE(env)];
        HonestFields(env);
      }
    }
  }

  lemma HonestFields(env: Env)
    requires Shared(env)
    ensures var keys, partial := HonestKeys(env.c, env.client, env.server), PartialSession(env);
            partial == Session(Str(env.server.sessionId), env.client.identity, keys.mode, keys.trustedKeyId, None)
  {
  }

  lemma KeyExchangeStep(env: Env)
    requires Shared(env)
    ensures HashesHaveFixedSize(env.c)
    ensures ReceiveClientKeyExchange(env.c, env.server, AfterHello(env), CKE(env)) == (AfterFinished(env), Ok(SF(env)))
    ensures IsClientKeyExchange(CKE(env))
  {
    hide ReceiveClientKeyExchange, Deserialize, HonestServerHello, ClientHelloBytes, DecapsulateBoth, Find, Correct, KeyExchange,
         TrustedKeys, WithSecrets, NegotiatedMode, HashesHaveFixedSize, Serialize;
    SharedParts(env);
    ExchangeDecapsulates(env.c, env.client, env.server, TrustedKeys(env));
    ServerAnswersExchange(env.c, env.server, CH(env), SH(env), CKE(env), ServerSecret(env));
  }

  /** The client accepts the ServerFinished exactly when the two sides hold the same secret. */
  lemma ServerFinishedStep(env: Env)
    requires Sound(env)
    ensures HashesHaveFixedSize(env.c)
    ensures var r := ReceiveServerFinished(env.c, AfterKeyExchange(env), SF(env), PartialSession(env));
            if ClientSecret(env) == ServerSecret(env) then r == (AfterFinished(env), Ok(SessionOfClient(env))) else r.1.Raise?
  {
    hide Shared, ReceiveServerFinished, CKE, SH, ClientSecret, ServerSecret, ClientHelloBytes, WithSecrets, Serialize, PartialSession,
         ServerFinishedMac, HashesHaveFixedSize, Keyed, DecodedKeyed, KeysOver, NoServerMacCollision, SessionKeys, TranscriptHash;
    SharedParts(env);
    BothKeyed(env);
    KeyedOverHas(env.c, CH(env), SH(env), CKE(env), ClientSecret(env));
    KeyedOverHas(env.c, CH(env), SH(env), CKE(env), ServerSecret(env));
    if ClientSecret(env) == ServerSecret(env) {
      ClientAcceptsFinished(env.c, CH(env), SH(env), CKE(env), ClientSecret(env), PartialSession(env));
    } else if ReceiveServerFinished(env.c, AfterKeyExchange(env), SF(env), PartialSession(env)).1.Ok? {
      CarriesServerMac(env);
      AcceptedServerFinished(env.c, AfterKeyExchange(env), ServerKeyed(env), SF(env), PartialSession(env));
      assert false;
    }
  }

  lemma CarriesServerMac(env: Env)
    requires Shared(env) && HashesHaveFixedSize(env.c)
    ensures CarriesMac(SF(env), ServerFinishedMac(env.c, ServerKeyed(env)))
  {
    hide Shared, ServerKeyed, Serialize, Deserialize, DecodeBytesField, ServerFinishedMac, HashesHaveFixedSize;
    FinishedDecodes("ServerFinished", ServerFinishedMac(env.c, ServerKeyed(env)));
  }

  lemma FinishingStep(env: Env)
    requires Shared(env)
    ensures HashesHaveFixedSize(env.c)
    ensures SendClientFinished(env.c, AfterFinished(env)) == (AtEnd(env), Ok(CF(env)))
    ensures !IsClientKeyExchange(CF(env))
  {
    hide Shared, SendClientFinished, CKE, SH, ServerSecret, ClientHelloBytes, WithSecrets, Serialize, Deserialize, ClientFinishedMac,
         HashesHaveFixedSize, Find, DecodeBytesField, SF;
    SharedParts(env);
    ClientFinishes(env.c, CH(env), SH(env), CKE(env), ServerSecret(env), SF(env));
    FinishedDecodes("ClientFinished", ClientFinishedMac(env.c, ServerKeyed(env)));
    assert |"ClientFinished"| != |"ClientKeyExchange"|;
  }

  /** A second ServerHello instead of the ServerFinished makes the client raise. */
  lemma RepeatedServerHelloStep(env: Env)
    requires Shared(env)
    ensures HashesHaveFixedSize(env.c)
    ensures ReceiveServerFinished(env.c, AfterKeyExchange(env), SH(env), PartialSession(env)).1.Raise?
  {
    hide Deserialize, HonestServerHello, DecodeBytesField, Find, IsMessage, HonestClientSession, AfterKeyExchange, NegotiatedMode,
         KemCorrect, SignaturesCorrect, AeadCorrect;
    ServerHelloDecodes(env.c, env.client, env.server);
  }

  lemma ClientFinishedStep(env: Env)
    requires Shared(env)
    ensures HashesHaveFixedSize(env.c)
    ensures ReceiveClientFinished(env.c, env.server, AfterFinished(env), CF(env)) == (AtEnd(env), Ok(SessionOfServer(env)))
  {
    hide ReceiveClientFinished, CKE, HonestServerHello, ServerSecret, ClientHelloBytes, WithSecrets, Serialize, Deserialize,
         ClientFinishedMac, HashesHaveFixedSize, Find, DecodeBytesField, SF, NegotiatedMode, SessionKeys, TranscriptHash, Correct,
         IsMessage;
    SharedParts(env);
    ServerHelloDecodes(env.c, env.client, env.server);
    KeyedOverHas(env.c, CH(env), SH(env), CKE(env), ServerSecret(env));
    ServerAcceptsFinished(env.c, env.server, CH(env), SH(env), CKE(env), ServerSecret(env), SF(env),
                          Str(NegotiatedMode(env.client, env.server).value));
    ModeAndKeyId(env);
  }

  lemma ModeAndKeyId(env: Env)
    requires Shared(env)
    ensures var mode := NegotiatedMode(env.client, env.server).value;
            PartialSession(env).handshakeMode == Str(mode) &&
            PartialSession(env).trustedKeyId == (if mode == "pdk" then Str(env.server.pdkKeyId) else Null) &&
            (mode == "pdk" ==> env.server.pdkKeyId != "")
  {
    assert "baseline"[0] != "pdk"[0];
  }

  /** The handlers follow the script. */
  ghost predicate Follows(env: Env, h: Script)
    requires Usable(env)
  {
    AeadCorrect(env.c) &&
    SendClientHello(env.client, FRESH) == (State([h.ch], None, None, None), h.ch) &&
    ReceiveClientHello(env.c, env.server, FRESH, h.ch) == (h.afterHello, Ok(h.sh)) &&
    (forall now :: var r := ReceiveServerHello(env.c, env.client, State([h.ch], None, None, None), h.sh, now);
                   r.1.Raise? || r == (h.afterKeyExchange, Ok((h.cke, h.partial)))) &&
    ReceiveClientKeyExchange(env.c, env.server, h.afterHello, h.cke) == (h.afterFinished, Ok(h.sf)) &&
    (var r := ReceiveServerFinished(env.c, h.afterKeyExchange, h.sf, h.partial);
     r.1.Raise? || r == (h.afterFinished, Ok(h.clientSession))) &&
    ReceiveServerFinished(env.c, h.afterKeyExchange, h.sh, h.partial).1.Raise? &&
    SendClientFinished(env.c, h.afterFinished) == (h.atEnd, Ok(h.cf)) &&
    ReceiveClientFinished(env.c, env.server, h.afterFinished, h.cf) == (h.atEnd, Ok(h.serverSession)) &&
    IsClientKeyExchange(h.cke) && !IsClientKeyExchange(h.cf) &&
    ClientDirection(h.clientSession) == ClientDirection(h.serverSession) == Some(h.clientKey) &&
    ServerDirection(h.clientSession) == ServerDirection(h.serverSession) == Some(h.serverKey)
  }

  lemma SameDirections(env: Env)
    requires Shared(env)
    ensures var h := ScriptOf(env);
            ClientDirection(h.clientSession) == ClientDirection(h.serverSession) == Some(h.clientKey) &&
            ServerDirection(h.clientSession) == ServerDirection(h.serverSession) == Some(h.serverKey)
  {
    hide Shared, FinalKeys, PartialSession, CF, SF, CKE, SH, AfterHello, AfterKeyExchange, AfterFinished, AtEnd;
  }

  lemma SoundFollows(env: Env)
    requires Sound(env)
    ensures Shared(env) && Usable(env) && Follows(env, ScriptOf(env))
  {
    hide Shared, CH, SH, CKE, SF, CF, AfterHello, AfterKeyExchange, AfterFinished, AtEnd, PartialSession, SessionOfClient,
         SessionOfServer, ReceiveClientHello, ReceiveServerHello, ReceiveClientKeyExchange, ClientSecret, ServerSecret,
         ReceiveServerFinished, ReceiveClientFinished, SendClientHello, SendClientFinished, IsClientKeyExchange,
         ClientDirection, ServerDirection, HashesHaveFixedSize, AeadCorrect, IsMessage, NoServerMacCollision, ServerKeyed;
    SharedParts(env);
    SameDirections(env);
    ClientHelloStep(env);
    forall now
      ensures var r := ReceiveServerHello(env.c, env.client, State([CH(env)], None, None, None), SH(env), now);
              r.1.Raise? || r == (AfterKeyExchange(env), Ok((CKE(env), PartialSession(env))))
    {
      ServerHelloStep(env, now);
    }
    KeyExchangeStep(env);
    ServerFinishedStep(env);
    FinishingStep(env);
    RepeatedServerHelloStep(env);
    ClientFinishedStep(env);
  }
}
