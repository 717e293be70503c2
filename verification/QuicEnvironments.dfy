/** Environments in which the runs of the datagram transport exist, in both modes. */
module QuicEnvironments {
  import opened Wrappers
  import opened ByteStrings
  import opened CanonicalJson
  import opened Messages
  import opened HandshakeMessages
  import opened Primitives
  import opened KeySchedule
  import opened Handshake
  import opened HandshakeRun
  import opened MessageSizes
  import opened QuicEndpoints
  import opened QuicScript
  import opened QuicProgress
  import Base64Url
  import Certificates

  const FIELD_LIMIT := 1_100_000

  /** The texts, the certificate and the connection id are of moderate size. */
  predicate Moderate(env: Env) {
    |env.client.random| <= 1000 && |env.client.identity| <= 1000 && |env.client.mode| <= 1000 &&
    |env.server.sessionId| <= 1000 && |env.server.pdkKeyId| <= 1000 && Bound(env.server.cert) <= 1_000_000 &&
    1 <= |env.connectionId| <= 255
  }

  lemma {:induction false} ItemsWithin(items: seq<Value>, limit: nat)
    requires forall i | 0 <= i < |items| :: Bound(items[i]) < limit
    ensures ItemsBound(items) <= |items| * limit
  {
    hide Bound;
    if items != [] {
      ItemsWithin(items[1..], limit);
    }
  }

  lemma ModesSize(modes: seq<string>)
    requires |modes| <= 2 && forall i | 0 <= i < |modes| :: |modes[i]| <= 1000
    ensures Bound(ModeList(modes)) <= 30_000
  {
    ItemsWithin(ModeList(modes).items, 13_000);
  }

  lemma ClientHelloSize(client: Client)
    requires |client.random| <= 1000 && |client.identity| <= 1000 && |client.mode| <= 1000
    ensures |ClientHelloBytes(client)| <= 5 * FIELD_LIMIT + 2
  {
    var message := ClientHello(client.random, client.identity, OfferedModes(client.mode));
    ModesSize(OfferedModes(client.mode));
    TextSize(message);
    FieldsWithin(message.fields, FIELD_LIMIT);
  }

  lemma ServerHelloSize(c: Suite, server: Server, mode: string)
    requires IsMessage(server.cert) && Bound(server.cert) <= 1_000_000 && KemCorrect(c) && |server.ephSk| == KEM_SECRET_KEY_SIZE
    requires |server.sessionId| <= 1000 && |server.pdkKeyId| <= 1000 && |mode| <= 1000
    ensures |Serialize(ServerHello(c, server, mode)).value| <= 6 * FIELD_LIMIT + 2
  {
    var message := ServerHello(c, server, mode);
    TextSize(message);
    FieldsWithin(message.fields, FIELD_LIMIT);
  }

  lemma KeyExchangeSize(ctEphemeral: Bytes, ctLongterm: Bytes)
    requires |ctEphemeral| == |ctLongterm| == KEM_CIPHERTEXT_SIZE
    ensures |Serialize(ClientKeyExchange(ctEphemeral, ctLongterm)).value| <= 3 * FIELD_LIMIT + 2
  {
    var message := ClientKeyExchange(ctEphemeral, ctLongterm);
    TextSize(message);
    FieldsWithin(message.fields, FIELD_LIMIT);
  }

  lemma FinishedSize(messageType: string, mac: Bytes)
    requires |messageType| <= 1000 && |mac| == HASH_LEN
    ensures |Serialize(Finished(messageType, mac)).value| <= 2 * FIELD_LIMIT + 2
  {
    var message := Finished(messageType, mac);
    TextSize(message);
    FieldsWithin(message.fields, FIELD_LIMIT);
  }

  lemma HelloSizes(env: Env)
    requires Shared(env) && Moderate(env)
    ensures |CH(env)| <= 6 * FIELD_LIMIT + 2 && |SH(env)| <= 6 * FIELD_LIMIT + 2
  {
    hide ClientHelloBytes, Serialize, ServerHello, Bound, OfferedModes, Truthy;
    ClientHelloSize(env.client);
    ServerHelloSize(env.c, env.server, NegotiatedMode(env.client, env.server).value);
  }

  lemma ExchangeSize(env: Env)
    requires Shared(env)
    ensures |CKE(env)| <= 3 * FIELD_LIMIT + 2
  {
    hide Serialize, TrustedKeys, NegotiatedMode, HandshakeSecret;
    var keys := TrustedKeys(env);
    KeyExchangeSize(env.c.kemCiphertext(keys.ephPk, env.client.coinsEphemeral), env.c.kemCiphertext(keys.ltPk, env.client.coinsLongterm));
  }

  lemma MacSizes(c: Suite, st: State)
    requires HashesHaveFixedSize(c) && st.clientFinKey.Some? && st.serverFinKey.Some?
    ensures |ServerFinishedMac(c, st)| == |ClientFinishedMac(c, st)| == HASH_LEN
  {
  }

  /** Every message of a handshake between moderate parties fits a datagram's length field. */
  lemma ModerateFits(env: Env)
    requires Shared(env) && Moderate(env)
    ensures Fits(env, ScriptOf(env))
  {
    hide Shared, ClientHelloBytes, Serialize, ServerHello, Bound, KeyExchange, TrustedKeys, KeyedOver, ClientFinishedMac, ServerFinishedMac,
         HashesHaveFixedSize;
    Pow256Values();
    hide Pow256;
    HelloSizes(env);
    ExchangeSize(env);
    SharedParts(env);
    MacSizes(env.c, ServerKeyed(env));
    FinishedSize("ServerFinished", ServerFinishedMac(env.c, ServerKeyed(env)));
    FinishedSize("ClientFinished", ClientFinishedMac(env.c, ServerKeyed(env)));
  }

  // ---------------------------------------------------------------------------------------------
  // Such environments exist
  // ---------------------------------------------------------------------------------------------

  /** The server echoes its requests. */
  function EchoEnv(c: Suite, client: Client, server: Server): Env {
    Env(c, client, server, [0], (request: Bytes) => true, (before, session, request) => Ok(request))
  }

  /** All that the runs of this mode need: at time 0 the client trusts the server, and any message that fits is answered. */
  ghost predicate Runs(env: Env, mode: string) {
    Shared(env) && Usable(env) && NegotiatedMode(env.client, env.server) == Some(mode) &&
    Trusts(env.c, env.client, env.server, mode, 0) && Fits(env, ScriptOf(env)) &&
    forall request | |request| + TAG_SIZE < Pow256(4) :: Answerable(env, ScriptOf(env).serverSession, request)
  }

  lemma EchoRuns(c: Suite, client: Client, server: Server, mode: string)
    requires var env := EchoEnv(c, client, server); Shared(env) && Usable(env) && Moderate(env)
    requires NegotiatedMode(client, server) == Some(mode) && IsMessage(server.cert) && Trusts(c, client, server, mode, 0)
    ensures Runs(EchoEnv(c, client, server), mode)
  {
    hide Shared, Usable, ScriptOf, Fits, Trusts, Pow256, Moderate, IsMessage, NegotiatedMode;
    ModerateFits(EchoEnv(c, client, server));
  }

  lemma CorrectHashes(c: Suite)
    requires Correct(c)
    ensures HashesHaveFixedSize(c)
  {
  }

  /** For every correct suite there is an environment that runs in pdk mode. */
  lemma PdkEnvironment(c: Suite) returns (env: Env)
    requires Correct(c)
    ensures env.c == c && Runs(env, "pdk")
  {
    hide Correct, KemCorrect, SignaturesCorrect, AeadCorrect, Runs;
    CorrectHashes(c);
    var sk := Zeros(KEM_SECRET_KEY_SIZE);
    var client := Client("server", [], Some(map["key" := PdkEntry("server", c.kemPublic(sk))]), "pdk", "", [], []);
    var server := Server(sk, Null, "key", "", sk);
    env := EchoEnv(c, client, server);
    assert OfferedModes("pdk") == ["pdk"] by { assert "pdk"[0] != "auto"[0]; }
    assert "pdk" in ["pdk"];
    assert NegotiatedMode(client, server) == Some("pdk");
    assert "pdk"[0] != "baseline"[0];
    assert ResolveIdentity(client.pdkStore.value, "server", Str("key")) == Ok(c.kemPublic(sk));
    EchoRuns(c, client, server, "pdk");
  }

  /** For every correct suite there is one that runs in baseline mode, with a certificate its CA made. */
  lemma BaselineEnvironment(c: Suite) returns (env: Env)
    requires Correct(c)
    ensures env.c == c && Runs(env, "baseline")
  {
    hide Correct, KemCorrect, SignaturesCorrect, AeadCorrect, Runs, Trusts, Certificates.Create, IsMessage;
    CorrectHashes(c);
    var sk, caSk := Zeros(KEM_SECRET_KEY_SIZE), Zeros(SIG_SECRET_KEY_SIZE);
    var client := Client("server", c.sigPublic(caSk), None, "baseline", "", [], []);
    CertificateSize(c, sk, caSk);
    var server := Server(sk, Certificates.Create(c, "server", c.kemPublic(sk), caSk, "ca", 0, 1).value, "", "", sk);
    CreatedCertificateIsTrusted(c, client, server, caSk, "ca", 0, 1, 0);
    env := EchoEnv(c, client, server);
    assert OfferedModes("baseline") == ["baseline"] by { assert "baseline"[0] != "auto"[0]; }
    assert "baseline" in ["baseline"];
    assert NegotiatedMode(client, server) == Some("baseline");
    EchoRuns(c, client, server, "baseline");
  }

  lemma CertificateSize(c: Suite, sk: Bytes, caSk: Bytes)
    requires Correct(c) && |sk| == KEM_SECRET_KEY_SIZE && |caSk| == SIG_SECRET_KEY_SIZE
    ensures var cert := Certificates.Create(c, "server", c.kemPublic(sk), caSk, "ca", 0, 1);
            cert.Ok? && IsMessage(cert.value) && Bound(cert.value) <= 1_000_000
  {
    hide Serialize, Bound, IsMessage, Certificates.Body, Certificates.Validate;
    Certificates.CreatedValidatesIff(c, "server", c.kemPublic(sk), caSk, "ca", 0, 1, "server", 0);
    var body := Certificates.Body("server", c.kemPublic(sk), "ca", 0, 1);
    var signature := c.sigSign(caSk, Serialize(body).value);
    SignedSize(c.kemPublic(sk), signature);
  }

  lemma SignedSize(kemPk: Bytes, signature: Bytes)
    requires |kemPk| == KEM_PUBLIC_KEY_SIZE && |signature| == SIGNATURE_SIZE
    ensures Bound(Obj(Certificates.Body("server", kemPk, "ca", 0, 1).fields + [Field("signature", Str(Base64Url.Encode(signature)))])) <= 1_000_000
  {
    hide Base64Url.Encode, IsMessage;
    var fields := Certificates.Body("server", kemPk, "ca", 0, 1).fields + [Field("signature", Str(Base64Url.Encode(signature)))];
    EncodedSize(kemPk);
    EncodedSize(signature);
    FieldsWithin(fields, 100_000);
  }
}
