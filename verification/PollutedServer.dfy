/** What messages that a server appended and refused mean for the ClientFinished it then accepts. */
module PollutedServer {
  import opened Wrappers
  import opened ByteStrings
  import opened CanonicalJson
  import opened Messages
  import opened HandshakeMessages
  import opened Primitives
  import opened KeySchedule
  import opened Handshake
  import opened HandshakeTampering
  import opened QuicTampering
  import opened QuicPackets
  import opened QuicEndpoints
  import HandshakeRun
  import Certificates

  // ---------------------------------------------------------------------------------------------
  // The client's side
  // ---------------------------------------------------------------------------------------------

  /** What a client got from the ServerHello it accepted, and the exchange it made of it. */
  datatype Accepted = Accepted(hello: Bytes, keys: ServerKeys, ctEphemeral: Bytes, ctLongterm: Bytes, secret: Bytes)

  predicate ExchangeMade(c: Suite, client: Client, a: Accepted) {
    Deserialize(a.hello).Ok? && DecodeBytesField(Deserialize(a.hello).value, "eph_pk") == Ok(a.keys.ephPk) &&
    |a.keys.ephPk| == KEM_PUBLIC_KEY_SIZE && |a.keys.ltPk| == KEM_PUBLIC_KEY_SIZE &&
    a.ctEphemeral == c.kemCiphertext(a.keys.ephPk, client.coinsEphemeral) &&
    a.ctLongterm == c.kemCiphertext(a.keys.ltPk, client.coinsLongterm) &&
    HandshakeSecret(c, [c.kemShared(a.keys.ephPk, client.coinsEphemeral), c.kemShared(a.keys.ltPk, client.coinsLongterm)]) ==
    Ok(a.secret)
  }

  function KeyExchangeOf(a: Accepted): Bytes {
    Serialize(ClientKeyExchange(a.ctEphemeral, a.ctLongterm)).value
  }

  /** A state of a client that accepted this ServerHello: its hello, the ServerHello, its ClientKeyExchange. */
  ghost predicate ClientMade(c: Suite, client: Client, a: Accepted, st: State)
    requires HashesHaveFixedSize(c)
  {
    Keyed(c, st) && ExchangeMade(c, client, a) && st.handshakeSecret == Some(a.secret) &&
    st.transcript[..3] == [ClientHelloBytes(client), a.hello, KeyExchangeOf(a)]
  }

  lemma CheckedKeys(c: Suite, client: Client, sh: Value, now: int)
    requires IsMessage(sh) && CheckServerHello(c, client, sh, now).Ok?
    ensures DecodeBytesField(sh, "eph_pk") == Ok(CheckServerHello(c, client, sh, now).value.ephPk)
  {
    hide DecodeBytesField, Certificates.Validate, ResolveIdentity, Find, IsMessage;
  }

  lemma ExchangedKeys(c: Suite, client: Client, keys: ServerKeys)
    requires KeyExchange(c, client, keys).Ok?
    ensures |keys.ephPk| == KEM_PUBLIC_KEY_SIZE && |keys.ltPk| == KEM_PUBLIC_KEY_SIZE
    ensures KeyExchange(c, client, keys).value.0 ==
            Serialize(ClientKeyExchange(c.kemCiphertext(keys.ephPk, client.coinsEphemeral),
                                        c.kemCiphertext(keys.ltPk, client.coinsLongterm))).value
    ensures HandshakeSecret(c, [c.kemShared(keys.ephPk, client.coinsEphemeral), c.kemShared(keys.ltPk, client.coinsLongterm)]) ==
            Ok(KeyExchange(c, client, keys).value.1)
  {
    hide HandshakeSecret, Serialize, ClientKeyExchange;
  }

  /** Every client that accepts a ServerHello, whoever made it, is in such a state. */
  lemma ClientIsMade(c: Suite, client: Client, msg: Bytes, now: int) returns (a: Accepted)
    requires HashesHaveFixedSize(c)
    requires ReceiveServerHello(c, client, SendClientHello(client, FRESH).0, msg, now).1.Ok?
    ensures a.hello == msg && ClientMade(c, client, a, ReceiveServerHello(c, client, SendClientHello(client, FRESH).0, msg, now).0)
  {
    hide Keyed, CheckServerHello, KeyExchange, Deserialize, ClientHelloBytes, IsMessage, DecodeBytesField, ClientKeyExchange, Serialize,
         HandshakeSecret, ClientFinishedKey, ServerFinishedKey, TranscriptHash;
    var r := ReceiveServerHello(c, client, SendClientHello(client, FRESH).0, msg, now);
    DeserializedIsMessage(msg);
    ClientBecomesKeyed(c, client, msg, now);
    var keys := CheckServerHello(c, client, Deserialize(msg).value, now).value;
    CheckedKeys(c, client, Deserialize(msg).value, now);
    ExchangedKeys(c, client, keys);
    a := Accepted(msg, keys, c.kemCiphertext(keys.ephPk, client.coinsEphemeral), c.kemCiphertext(keys.ltPk, client.coinsLongterm),
                  KeyExchange(c, client, keys).value.1);
    assert r.0.transcript[..3] == r.0.transcript;
  }

  /** The finished messages keep it. */
  lemma FinishedKeepsMade(c: Suite, client: Client, a: Accepted, st: State, msg: Bytes, session: Session)
    requires HashesHaveFixedSize(c) && ClientMade(c, client, a, st)
    ensures ClientMade(c, client, a, ReceiveServerFinished(c, st, msg, session).0)
    ensures ClientMade(c, client, a, SendClientFinished(c, st).0)
  {
    hide Deserialize, Serialize, TranscriptHash, DecodeBytesField, SessionKeys, ExchangeMade, KeyExchangeOf, ClientHelloBytes,
         ClientFinishedMac, IsObjectText;
    FinishedKeepsKeyed(c, AnyServer(), st, msg, session);
  }

  function AnyServer(): Server {
    Server([], Null, "", "", [])
  }

  // ---------------------------------------------------------------------------------------------
  // What the third message can be
  // ---------------------------------------------------------------------------------------------

  /** A client's ClientKeyExchange as anyone decodes it. */
  lemma ExchangeReads(a: Accepted)
    ensures Deserialize(KeyExchangeOf(a)).Ok?
    ensures var cke := Deserialize(KeyExchangeOf(a)).value;
            && cke.Obj? && cke.Get("type") == Some(Str("ClientKeyExchange")) && cke.Get("modes") == None
            && DecodeBytesField(cke, "ct_ephemeral") == Ok(a.ctEphemeral)
            && DecodeBytesField(cke, "ct_longterm") == Ok(a.ctLongterm)
  {
    hide Serialize, ClientKeyExchange, Normal, DecodeBytesField, Find, Deserialize;
    var message := ClientKeyExchange(a.ctEphemeral, a.ctLongterm);
    HandshakeRun.ReadMessage(message);
    HandshakeRun.KeyExchangeFields(a.ctEphemeral, a.ctLongterm);
    NoModes(a);
    HandshakeRun.ReadField(message, "type");
    HandshakeRun.ReadField(message, "modes");
    HandshakeRun.ReadField(message, "ct_ephemeral");
    HandshakeRun.ReadField(message, "ct_longterm");
  }

  lemma NoModes(a: Accepted)
    ensures ClientKeyExchange(a.ctEphemeral, a.ctLongterm).Get("modes") == None
  {
    FindNone(ClientKeyExchange(a.ctEphemeral, a.ctLongterm).fields, "modes");
  }

  /** It is no ClientHello that a server accepts. */
  lemma ExchangeIsNoHello(server: Server, a: Accepted)
    ensures RefusedHello(server, KeyExchangeOf(a))
  {
    hide Deserialize, KeyExchangeOf, DecodeBytesField, Find;
    ExchangeReads(a);
  }

  ghost predicate ServerKeysOk(server: Server) {
    |server.ltSk| == KEM_SECRET_KEY_SIZE && |server.ephSk| == KEM_SECRET_KEY_SIZE
  }

  /** No server with well-formed keys refuses a client's ClientKeyExchange, for whatever keys it was made. */
  lemma ExchangeIsNotRefused(c: Suite, client: Client, server: Server, a: Accepted)
    requires KemCorrect(c) && ServerKeysOk(server) && ExchangeMade(c, client, a)
    ensures !RefusedExchange(c, server, KeyExchangeOf(a))
  {
    hide Deserialize, KeyExchangeOf, DecodeBytesField, Find;
    ExchangeReads(a);
  }

  lemma SameDecodedSameRefusal(c: Suite, server: Server, x: Bytes, y: Bytes)
    requires Deserialize(x) == Deserialize(y)
    ensures RefusedHello(server, x) == RefusedHello(server, y)
    ensures RefusedExchange(c, server, x) == RefusedExchange(c, server, y)
  {
    hide Deserialize, HelloMode, DecapsulateBoth;
  }

  /** The third message of a transcript by where the accepted hello stands. */
  lemma ThirdMessage(x: Shape)
    requires |x.hello| == 2 && |x.exchange| == 2
    ensures |Laid(x)| >= 3
    ensures |x.before| == 0 && x.between == [] ==> Laid(x)[..3] == x.hello + [x.exchange[0]]
    ensures |x.before| == 0 && x.between != [] ==> Laid(x)[2] == x.between[0]
    ensures |x.before| == 1 ==> Laid(x)[2] == x.hello[1]
    ensures |x.before| == 2 ==> Laid(x)[2] == x.hello[0]
    ensures |x.before| >= 3 ==> Laid(x)[..3] == x.before[..3]
  {
    if x.between != [] {
      assert x.between == [x.between[0]] + x.between[1..];
    }
  }

  // ---------------------------------------------------------------------------------------------
  // Acceptance after pollution
  // ---------------------------------------------------------------------------------------------

  /** A server in this shape has a client's three messages as its first three. */
  ghost predicate Agrees(c: Suite, clientState: State, serverState: State)
    requires HashesHaveFixedSize(c)
  {
    KeysOver(c, clientState) && KeysOver(c, serverState) &&
    clientState.handshakeSecret == serverState.handshakeSecret && SameMessages(clientState, serverState, 3)
  }

  /**
    Agreement leaves two possibilities. Either nothing was refused before the ClientKeyExchange, and
    the messages agreed on are the ones the server accepted; or at least three messages had been
    refused before the server's own hello, and those are the ones agreed on.
  */
  lemma AgreementShape(c: Suite, client: Client, server: Server, a: Accepted, clientState: State, s: ServerSide, x: Shape)
    requires HashesHaveFixedSize(c) && KemCorrect(c) && IsMessage(server.cert) && ServerKeysOk(server)
    requires ClientMade(c, client, a, clientState) && Fits(c, server, s, x) && s.phase.AwaitClientFinished?
    requires Agrees(c, clientState, s.st)
    ensures |x.hello| == 2 && |x.exchange| == 2
    ensures (x.before == [] && x.between == [] && s.st.transcript[..3] == x.hello + [x.exchange[0]]) ||
            (|x.before| >= 3 && s.st.transcript[..3] == x.before[..3])
  {
    hide HashesHaveFixedSize, KemCorrect, IsMessage, Deserialize, RefusedHello, RefusedExchange, AcceptedHello, AcceptedExchange,
         KeysOver, Laid, Concat, AllDecode, ExchangeMade, KeyExchangeOf, ClientHelloBytes, IsObjectText;
    AcceptedLengths(c, server, x, s.st);
    ThirdMessage(x);
    var t := Laid(x);
    assert clientState.transcript[2] == clientState.transcript[..3][2] == KeyExchangeOf(a);
    assert Deserialize(t[2]) == Deserialize(KeyExchangeOf(a));
    ExchangeReads(a);
    ExchangeIsNoHello(server, a);
    ExchangeIsNotRefused(c, client, server, a);
    SameDecodedSameRefusal(c, server, t[2], KeyExchangeOf(a));
    if |x.before| == 1 {
      AnswerIsNoExchange(c, server, x.hello, a);
    } else if |x.before| == 2 {
      AcceptedIsNotRefused(c, server, x.hello);
    }
  }

  lemma AcceptedLengths(c: Suite, server: Server, x: Shape, st: State)
    requires HashesHaveFixedSize(c) && IsMessage(server.cert) && PartsOk(c, server, AwaitClientFinished, st, x)
    ensures |x.hello| == 2 && |x.exchange| == 2 && AcceptedHello(c, server, x.hello)
  {
    hide Deserialize, RefusedHello, RefusedExchange, KeysOver, HelloMode, DecapsulateBoth;
  }

  lemma AnswerIsNoExchange(c: Suite, server: Server, hello: seq<Bytes>, a: Accepted)
    requires IsMessage(server.cert) && AcceptedHello(c, server, hello)
    ensures Deserialize(hello[1]) != Deserialize(KeyExchangeOf(a))
  {
    hide Deserialize, KeyExchangeOf, HelloMode, Find, DecodeBytesField, IsMessage;
    AnswerDecodes(c, server, hello);
    ExchangeReads(a);
    assert "ServerHello"[0] != "ClientKeyExchange"[0];
  }

  lemma AcceptedIsNotRefused(c: Suite, server: Server, hello: seq<Bytes>)
    requires IsMessage(server.cert) && AcceptedHello(c, server, hello)
    ensures !RefusedHello(server, hello[0])
  {
    hide Deserialize, HelloMode;
  }

  // ---------------------------------------------------------------------------------------------
  // Whole connections
  // ---------------------------------------------------------------------------------------------

  /** The packet that takes a waiting connection to the established phase. */
  ghost predicate Establishes(env: Env, packets: seq<Packet>, p: Packet)
    requires Usable(env)
  {
    AllDecoded(packets) && Decoded(p) && Reached(env, packets).phase.AwaitClientFinished? &&
    ServerHandle(env, Reached(env, packets), p).0.phase.Established?
  }

  lemma EstablishingAccepts(env: Env, packets: seq<Packet>, p: Packet)
    requires Usable(env) && Establishes(env, packets, p)
    ensures ReceiveClientFinished(env.c, env.server, Reached(env, packets).st, p.payload).1.Ok?
  {
    hide Decoded, AllDecoded, Reached, ReceiveClientFinished, AckOf, IsClientKeyExchange, ClientDirection, ServerDirection,
         HashesHaveFixedSize, IsMessage;
  }

  /**
    After any packets whatsoever, if a packet that carries the MAC of some client's ClientFinished
    establishes the connection, the server holds that client's secret and saw its three messages.
    They are the ones the server accepted, with nothing refused before them or among them; or the
    server had refused three messages before its own hello, and they are those.
  */
  lemma EstablishedAgrees(env: Env, packets: seq<Packet>, p: Packet, client: Client, a: Accepted, clientState: State, x: Shape)
    requires Usable(env) && KemCorrect(env.c) && ServerKeysOk(env.server) && Establishes(env, packets, p)
    requires ClientMade(env.c, client, a, clientState) && CarriesMac(p.payload, ClientFinishedMac(env.c, clientState))
    requires Fits(env.c, env.server, Reached(env, packets), x)
    requires var st := Reached(env, packets).st; KeysOver(env.c, st) ==> NoClientMacCollision(env.c, clientState, st)
    ensures Agrees(env.c, clientState, Reached(env, packets).st)
    ensures var t := Reached(env, packets).st.transcript;
            |t| >= 3 && |x.hello| == 2 && |x.exchange| == 2 &&
            ((x.before == [] && x.between == [] && t[..3] == x.hello + [x.exchange[0]]) ||
             (|x.before| >= 3 && t[..3] == x.before[..3]))
  {
    hide Decoded, Reached, ServerHandle, HashesHaveFixedSize, IsMessage, KemCorrect, RefusedHello, RefusedExchange, AcceptedHello,
         AcceptedExchange, KeysOver, Laid, Deserialize, Keyed, NoClientMacCollision, CarriesMac, ReceiveClientFinished, ClientFinishedMac,
         ExchangeMade, SameMessages;
    EstablishingAccepts(env, packets, p);
    var st := Reached(env, packets).st;
    KeysOverLength(env.c, st);
    KeyedHasKeysOver(env.c, clientState);
    AcceptedClientFinished(env.c, env.server, clientState, st, p.payload);
    AgreementShape(env.c, client, env.server, a, clientState, Reached(env, packets), x);
  }

  lemma KeyedHasKeysOver(c: Suite, st: State)
    requires HashesHaveFixedSize(c) && Keyed(c, st)
    ensures KeysOver(c, st) && |st.transcript| >= 3 && st.clientFinKey.Some?
  {
  }

  // ---------------------------------------------------------------------------------------------
  // Excluding the second possibility
  // ---------------------------------------------------------------------------------------------

  /** What a server decapsulates from a ClientKeyExchange. */
  function ServerShares(c: Suite, server: Server, exchange: Bytes): Result<(Bytes, Bytes)> {
    var cke :- Deserialize(exchange);
    var ctEphemeral :- DecodeBytesField(cke, "ct_ephemeral");
    var ctLongterm :- DecodeBytesField(cke, "ct_longterm");
    Ok((c.kemDecapsulate(server.ephSk, ctEphemeral), c.kemDecapsulate(server.ltSk, ctLongterm)))
  }

  lemma AcceptedSecret(c: Suite, server: Server, exchange: seq<Bytes>, secret: Bytes)
    requires AcceptedExchange(c, server, exchange, secret)
    ensures var shares := ServerShares(c, server, exchange[0]);
            shares.Ok? && HandshakeSecret(c, [shares.value.0, shares.value.1]) == Ok(secret)
  {
    hide Deserialize, DecodeBytesField, HandshakeSecret;
  }

  lemma SameSecretSameShares(c: Suite, a: Bytes, b: Bytes, a': Bytes, b': Bytes)
    requires HandshakeSecret(c, [a, b]).Ok? && HandshakeSecret(c, [a, b]) == HandshakeSecret(c, [a', b'])
    requires NoMacCollision(c, Zeros(HASH_LEN), a + b, Zeros(HASH_LEN), a' + b')
    ensures a == a' && b == b'
  {
    ConcatPair(a, b);
    ConcatPair(a', b');
    HashSized(a, b);
    HashSized(a', b');
    assert a == (a + b)[..HASH_LEN] && a' == (a' + b')[..HASH_LEN];
    assert b == (a + b)[HASH_LEN..] && b' == (a' + b')[HASH_LEN..];
  }

  lemma HashSized(a: Bytes, b: Bytes)
    ensures AllHashSized([a, b]) <==> |a| == |b| == HASH_LEN
  {
    assert [a, b][0] == a && [a, b][1] == b;
  }

  /** No refused hello carried the server's ephemeral public key, which the server had not sent yet. */
  predicate KeyUnseen(c: Suite, server: Server, refused: seq<Bytes>) {
    forall i | 0 <= i < |refused| :: Deserialize(refused[i]).Ok? ==>
      DecodeBytesField(Deserialize(refused[i]).value, "eph_pk") != Ok(c.kemPublic(server.ephSk))
  }

  /** The shares that these two sides hold do not collide, in the extraction or across public keys. */
  predicate NoShareCollision(c: Suite, client: Client, server: Server, a: Accepted, exchange: Bytes) {
    var theirs := ServerShares(c, server, exchange);
    var ssE, ssL := c.kemShared(a.keys.ephPk, client.coinsEphemeral), c.kemShared(a.keys.ltPk, client.coinsLongterm);
    theirs.Ok? ==>
      NoMacCollision(c, Zeros(HASH_LEN), ssE + ssL, Zeros(HASH_LEN), theirs.value.0 + theirs.value.1) &&
      (ssE == theirs.value.0 ==> a.keys.ephPk == c.kemPublic(server.ephSk))
  }

  lemma UnseenKeyDiffers(c: Suite, client: Client, server: Server, a: Accepted, x: Shape, secret: Bytes)
    requires |x.before| >= 3 && |x.exchange| == 2
    requires ExchangeMade(c, client, a) && a.secret == secret && AcceptedExchange(c, server, x.exchange, secret)
    requires KeyUnseen(c, server, x.before) && NoShareCollision(c, client, server, a, x.exchange[0])
    ensures Deserialize(x.before[1]) != Deserialize(a.hello)
  {
    hide Deserialize, DecodeBytesField, HandshakeSecret, AcceptedExchange, ServerShares;
    AcceptedSecret(c, server, x.exchange, secret);
    var theirs := ServerShares(c, server, x.exchange[0]).value;
    SameSecretSameShares(c, c.kemShared(a.keys.ephPk, client.coinsEphemeral), c.kemShared(a.keys.ltPk, client.coinsLongterm),
                         theirs.0, theirs.1);
    assert a.keys.ephPk == c.kemPublic(server.ephSk);
  }

  /**
    A server that nobody could show its ephemeral key before it sent that key accepts no client's
    ClientFinished after it has refused anything: what was agreed on is what it accepted.
  */
  lemma UnseenKeyAgrees(env: Env, packets: seq<Packet>, p: Packet, client: Client, a: Accepted, clientState: State, x: Shape)
    requires Usable(env) && KemCorrect(env.c) && ServerKeysOk(env.server) && Establishes(env, packets, p)
    requires ClientMade(env.c, client, a, clientState) && CarriesMac(p.payload, ClientFinishedMac(env.c, clientState))
    requires Fits(env.c, env.server, Reached(env, packets), x)
    requires var st := Reached(env, packets).st; KeysOver(env.c, st) ==> NoClientMacCollision(env.c, clientState, st)
    requires KeyUnseen(env.c, env.server, x.before)
    requires x.exchange != [] ==> NoShareCollision(env.c, client, env.server, a, x.exchange[0])
    ensures x.before == [] && x.between == [] && |x.hello| == 2 && |x.exchange| == 2
    ensures var st := Reached(env, packets).st;
            Agrees(env.c, clientState, st) && |st.transcript| >= 3 && st.transcript[..3] == x.hello + [x.exchange[0]]
  {
    hide Decoded, Reached, ServerHandle, HashesHaveFixedSize, IsMessage, KemCorrect, RefusedHello, RefusedExchange, AcceptedHello,
         AcceptedExchange, KeysOver, Laid, Deserialize, Keyed, NoClientMacCollision, CarriesMac, ClientFinishedMac, ExchangeMade,
         KeyUnseen, NoShareCollision, AllDecode, AllDecoded, Concat, KeyExchangeOf, ClientHelloBytes;
    EstablishedAgrees(env, packets, p, client, a, clientState, x);
    if |x.before| >= 3 {
      var st := Reached(env, packets).st;
      WaitingHasSecret(env, packets, p, x);
      UnseenKeyDiffers(env.c, client, env.server, a, x, st.handshakeSecret.value);
      assert false;
    }
  }

  lemma WaitingHasSecret(env: Env, packets: seq<Packet>, p: Packet, x: Shape)
    requires Usable(env) && Establishes(env, packets, p) && Fits(env.c, env.server, Reached(env, packets), x)
    ensures var st := Reached(env, packets).st;
            st.handshakeSecret.Some? && AcceptedExchange(env.c, env.server, x.exchange, st.handshakeSecret.value)
  {
    hide Decoded, Reached, ServerHandle, HashesHaveFixedSize, IsMessage, RefusedHello, RefusedExchange, AcceptedHello,
         AcceptedExchange, Laid, AllDecode, ClientFinishedKey, ServerFinishedKey;
  }
}
