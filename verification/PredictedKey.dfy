/**
  Agreement on refused messages is possible, when the server's ephemeral key was known before the
  server sent it: the messages of a whole exchange, refused as hellos, stand first in its transcript.
*/
module PredictedKey {
  import opened Wrappers
  import opened ByteStrings
  import opened CanonicalJson
  import opened Messages
  import opened HandshakeMessages
  import opened Primitives
  import opened KeySchedule
  import opened Handshake
  import opened HandshakeRun
  import opened QuicPackets
  import opened QuicEndpoints
  import HandshakeTampering
  import QuicTampering
  import PollutedServer
  import Certificates

  /** A client that offers only pdk, to a server that has only a certificate the client trusts. */
  ghost predicate Setting(env: Env, now: int) {
    Correct(env.c) && IsMessage(env.server.cert) && Truthy(env.server.cert) && env.server.pdkKeyId == "" &&
    |env.server.ltSk| == KEM_SECRET_KEY_SIZE && |env.server.ephSk| == KEM_SECRET_KEY_SIZE &&
    env.client.mode == "pdk" && Trusts(env.c, env.client, env.server, "baseline", now)
  }

  /** The same client, offering what the server has. */
  function Other(env: Env): Client {
    env.client.(mode := "baseline")
  }

  lemma SettingModes(env: Env, now: int)
    requires Setting(env, now)
    ensures Usable(env) && KemCorrect(env.c)
    ensures NegotiatedMode(env.client, env.server) == None && NegotiatedMode(Other(env), env.server) == Some("baseline")
    ensures Compatible(env.c, Other(env), env.server, now)
  {
    hide Truthy, IsMessage, KemCorrect, SignaturesCorrect, AeadCorrect, Certificates.Validate, Normal;
    assert "pdk"[0] != "auto"[0] && "baseline"[0] != "auto"[0] && "pdk"[0] != "baseline"[0];
    assert "pdk" !in ["baseline"] && "baseline" in ["baseline"] && "baseline" !in ["pdk"];
  }

  // The messages: the client's hello, the server's answer to the other client, and the exchange made of it.

  function Hello(env: Env): Bytes { ClientHelloBytes(env.client) }

  function Answer(env: Env): Bytes
    requires IsMessage(env.server.cert) && NegotiatedMode(Other(env), env.server).Some?
  { HonestServerHello(env.c, Other(env), env.server) }

  function Exchange(env: Env): Bytes { HonestKeyExchange(env.c, Other(env), env.server) }

  function Secret(env: Env): Bytes { HonestSecret(env.c, Other(env), env.server) }

  // ---------------------------------------------------------------------------------------------
  // All three are refused as hellos
  // ---------------------------------------------------------------------------------------------

  lemma HelloRefused(env: Env, now: int)
    requires Setting(env, now)
    ensures QuicTampering.RefusedHello(env.server, Hello(env))
  {
    hide ClientHelloBytes, Deserialize, OfferedModes, Find, ChooseMode, ModeList, Correct, IsMessage, Trusts, Truthy;
    SettingModes(env, now);
    ClientHelloDecodes(env.client);
    ModeChosen(env.client, env.server);
  }

  lemma NoModesRefused(server: Server, message: Value)
    requires IsMessage(message) && message.Obj? && message.Get("modes") == None
    ensures QuicTampering.RefusedHello(server, Serialize(message).value)
  {
    hide Serialize, Deserialize, Normal, Find, IsMessage;
    ReadMessage(message);
    ReadField(message, "modes");
  }

  lemma AnswerHasNoModes(c: Suite, server: Server, mode: string)
    requires IsMessage(server.cert)
    ensures ServerHello(c, server, mode).Get("modes") == None
  {
    FindNone(ServerHello(c, server, mode).fields, "modes");
  }

  lemma ExchangeHasNoModes(ctE: Bytes, ctL: Bytes)
    ensures ClientKeyExchange(ctE, ctL).Get("modes") == None
  {
    FindNone(ClientKeyExchange(ctE, ctL).fields, "modes");
  }

  lemma AllRefused(env: Env, now: int)
    requires Setting(env, now) && Usable(env) && NegotiatedMode(Other(env), env.server).Some?
    ensures QuicTampering.RefusedHello(env.server, Hello(env)) && QuicTampering.RefusedHello(env.server, Answer(env)) &&
            QuicTampering.RefusedHello(env.server, Exchange(env))
  {
    hide Serialize, ServerHello, ClientKeyExchange, Find, IsMessage, QuicTampering.RefusedHello, Setting, NegotiatedMode,
         HashesHaveFixedSize, ClientHelloBytes;
    var c, server, client := env.c, env.server, Other(env);
    HelloRefused(env, now);
    AnswerHasNoModes(c, server, NegotiatedMode(client, server).value);
    NoModesRefused(server, ServerHello(c, server, NegotiatedMode(client, server).value));
    var ctE := c.kemCiphertext(c.kemPublic(server.ephSk), client.coinsEphemeral);
    var ctL := c.kemCiphertext(c.kemPublic(server.ltSk), client.coinsLongterm);
    ExchangeHasNoModes(ctE, ctL);
    NoModesRefused(server, ClientKeyExchange(ctE, ctL));
  }

  // ---------------------------------------------------------------------------------------------
  // The client accepts the answer that was not made for it
  // ---------------------------------------------------------------------------------------------

  lemma SameChecks(c: Suite, client: Client, sh: Value, now: int)
    requires IsMessage(sh)
    ensures CheckServerHello(c, client, sh, now) == CheckServerHello(c, client.(mode := "baseline"), sh, now)
  {
    hide DecodeBytesField, Certificates.Validate, ResolveIdentity, Find, IsMessage;
  }

  lemma SameExchange(c: Suite, client: Client, keys: ServerKeys)
    ensures KeyExchange(c, client, keys) == KeyExchange(c, client.(mode := "baseline"), keys)
  {
    hide HandshakeSecret, Serialize, ClientKeyExchange;
  }

  function ClientSide3(env: Env): State
    requires Usable(env) && NegotiatedMode(Other(env), env.server).Some?
  {
    WithSecrets(env.c, State([Hello(env), Answer(env), Exchange(env)], None, None, None), Secret(env))
  }

  lemma ClientAccepts(env: Env, now: int)
    requires Setting(env, now) && Usable(env) && NegotiatedMode(Other(env), env.server).Some?
    ensures var r := ReceiveServerHello(env.c, env.client, SendClientHello(env.client, FRESH).0, Answer(env), now);
            r.1.Ok? && r.0 == ClientSide3(env)
  {
    hide Setting, CheckServerHello, KeyExchange, Deserialize, ClientHelloBytes, HonestServerHello, HonestKeyExchange, HonestSecret,
         WithSecrets, Correct, Find, Trusts, DecodeBytesField, NegotiatedMode, IsMessage, HashesHaveFixedSize;
    SettingModes(env, now);
    var c, server, client := env.c, env.server, Other(env);
    CompatibleModes(c, client, server, now);
    ServerHelloChecks(c, client, server, now);
    ServerHelloDecodes(c, client, server);
    ClientEncapsulates(c, client, server);
    SameChecks(c, env.client, Deserialize(Answer(env)).value, now);
    SameExchange(c, env.client, HonestKeys(c, client, server));
    assert FRESH.transcript + [Hello(env)] == [Hello(env)];
    assert [Hello(env)] + [Answer(env)] + [Exchange(env)] == [Hello(env), Answer(env), Exchange(env)];
  }

  lemma CompatibleModes(c: Suite, client: Client, server: Server, now: int)
    requires Compatible(c, client, server, now)
    ensures ModesCompatible(c, client, server)
  {
  }

  // ---------------------------------------------------------------------------------------------
  // The server
  // ---------------------------------------------------------------------------------------------

  function PacketOf(env: Env, packetType: int, number: nat, payload: Bytes): Packet {
    Packet(packetType, env.connectionId, number, payload, 0, PACKET_VERSION)
  }

  predicate Short(env: Env, payload: Bytes) {
    1 <= |env.connectionId| <= 255 && |payload| < Pow256(4)
  }

  lemma ShortDecoded(env: Env, packetType: int, number: nat, payload: Bytes)
    requires Short(env, payload) && 0 <= packetType <= 4 && number < 100
    ensures Decoded(PacketOf(env, packetType, number, payload))
  {
    Pow256Values();
    hide Pow256;
  }

  lemma Refuses(env: Env, s: ServerSide, p: Packet)
    requires Usable(env) && Decoded(p) && s.phase.AwaitInitial? && p.packetType == INITIAL
    requires QuicTampering.RefusedHello(env.server, p.payload)
    ensures ServerHandle(env, s, p).0 == s.(next := s.next + 1, st := Appended(s.st, p.payload))
  {
    hide HashesHaveFixedSize, IsMessage, Decoded, ReceiveClientHello, AckOf, QuicTampering.RefusedHello;
    QuicTampering.HelloHandled(env.c, env.server, s.st, p.payload);
    RefusedDecodes(env.server, p.payload);
  }

  lemma RefusedDecodes(server: Server, msg: Bytes)
    requires QuicTampering.RefusedHello(server, msg)
    ensures Deserialize(msg).Ok?
  {
    hide Deserialize;
  }

  lemma AnswersOther(env: Env, now: int, s: ServerSide, p: Packet)
    requires Setting(env, now) && Usable(env) && NegotiatedMode(Other(env), env.server) == Some("baseline")
    requires Decoded(p) && s.phase.AwaitInitial? && p.packetType == INITIAL && p.payload == ClientHelloBytes(Other(env))
    ensures var s' := ServerHandle(env, s, p).0;
            s'.phase.AwaitKeyExchange? && s'.st == Appended(Appended(s.st, p.payload), Answer(env))
  {
    hide Setting, HashesHaveFixedSize, IsMessage, Decoded, ReceiveClientHello, AckOf, Deserialize, ClientHelloBytes,
         NegotiatedMode, ChooseMode, ModeList, OfferedModes, Serialize, ServerHello, Find;
    QuicTampering.HelloHandled(env.c, env.server, s.st, p.payload);
    ClientHelloDecodes(Other(env));
    ModeChosen(Other(env), env.server);
  }

  lemma AnswersExchange(env: Env, now: int, s: ServerSide, p: Packet)
    requires Setting(env, now) && Usable(env) && NegotiatedMode(Other(env), env.server).Some?
    requires Decoded(p) && s.phase.AwaitKeyExchange? && p.packetType == HANDSHAKE && p.payload == Exchange(env)
    ensures var s' := ServerHandle(env, s, p).0;
            s'.phase.AwaitClientFinished? && s'.cachedFinished.Some? &&
            exists sf :: s'.st == Appended(WithSecrets(env.c, Appended(s.st, p.payload), Secret(env)), sf)
  {
    hide Setting, HashesHaveFixedSize, IsMessage, Decoded, ReceiveClientKeyExchange, AckOf, Deserialize, HonestKeyExchange,
         HonestSecret, DecapsulateBoth, Find, WithSecrets, NegotiatedMode, Appended;
    SettingModes(env, now);
    CompatibleModes(env.c, Other(env), env.server, now);
    QuicTampering.ExchangeHandled(env.c, env.server, s.st, p.payload);
    KeyExchangeDecodes(env.c, Other(env), env.server);
    var r := ReceiveClientKeyExchange(env.c, env.server, s.st, p.payload);
    assert r.0 == QuicTampering.Appended(WithSecrets(env.c, QuicTampering.Appended(s.st, p.payload), Secret(env)), r.1.value);
  }

  /** Same keys, same first three messages: the server accepts the client's MAC. */
  lemma ServerAccepts(env: Env, now: int, st: State, other: Bytes, sf: Bytes, msg: Bytes)
    requires Setting(env, now) && Usable(env) && NegotiatedMode(Other(env), env.server).Some?
    requires var t := [Hello(env), Answer(env), Exchange(env), other, Answer(env), Exchange(env)];
             st == Appended(WithSecrets(env.c, State(t, None, None, None), Secret(env)), sf)
    requires ClientSide3(env).clientFinKey.Some?
    requires HandshakeTampering.CarriesMac(msg, ClientFinishedMac(env.c, ClientSide3(env)))
    ensures ReceiveClientFinished(env.c, env.server, st, msg).1.Ok?
  {
    hide Setting, Deserialize, DecodeBytesField, HonestServerHello, HonestKeyExchange, HonestSecret, ClientHelloBytes, SessionKeys,
         ClientFinishedKey, ServerFinishedKey, TranscriptHash, NegotiatedMode, Find, IsMessage, HashesHaveFixedSize;
    SettingModes(env, now);
    CompatibleModes(env.c, Other(env), env.server, now);
    ServerHelloDecodes(env.c, Other(env), env.server);
    var a, b, c := Hello(env), Answer(env), Exchange(env);
    var t := [a, b, c, other, b, c];
    assert Take(t, 2) == [a, b] == Take([a, b, c], 2);
    assert Take(t + [sf], 3) == [a, b, c] == Take([a, b, c], 3);
    assert (t + [sf] + [msg])[1] == b;
  }

  // ---------------------------------------------------------------------------------------------
  // The connection
  // ---------------------------------------------------------------------------------------------

  lemma ReachedSnoc(env: Env, packets: seq<Packet>, p: Packet)
    requires Usable(env) && QuicTampering.AllDecoded(packets) && Decoded(p)
    ensures QuicTampering.AllDecoded(packets + [p])
    ensures QuicTampering.Reached(env, packets + [p]) == ServerHandle(env, QuicTampering.Reached(env, packets), p).0
  {
    hide Usable, Decoded, ServerHandle;
    assert (packets + [p])[..|packets|] == packets;
  }

  /** The client's ClientFinished over what it saw. */
  function Finish(env: Env): Bytes
    requires Usable(env) && NegotiatedMode(Other(env), env.server).Some?
  {
    SideHasKeys(env);
    Serialize(Finished("ClientFinished", ClientFinishedMac(env.c, ClientSide3(env)))).value
  }

  predicate AllShort(env: Env)
    requires Usable(env) && NegotiatedMode(Other(env), env.server).Some?
  {
    Short(env, Hello(env)) && Short(env, Answer(env)) && Short(env, Exchange(env)) && Short(env, ClientHelloBytes(Other(env))) &&
    Short(env, Finish(env))
  }

  lemma Polluted(env: Env, now: int) returns (packets: seq<Packet>)
    requires Setting(env, now) && Usable(env) && NegotiatedMode(Other(env), env.server) == Some("baseline") && AllShort(env)
    ensures QuicTampering.AllDecoded(packets)
    ensures var s := QuicTampering.Reached(env, packets);
            s.phase.AwaitInitial? && s.st == State([Hello(env), Answer(env), Exchange(env)], None, None, None)
  {
    hide Setting, HashesHaveFixedSize, IsMessage, Decoded, ServerHandle, QuicTampering.RefusedHello, ClientHelloBytes,
         HonestServerHello, HonestKeyExchange, NegotiatedMode, Finish, Pow256;
    AllRefused(env, now);
    var a, b, c := PacketOf(env, INITIAL, 0, Hello(env)), PacketOf(env, INITIAL, 1, Answer(env)), PacketOf(env, INITIAL, 2, Exchange(env));
    ShortDecoded(env, INITIAL, 0, Hello(env));
    ShortDecoded(env, INITIAL, 1, Answer(env));
    ShortDecoded(env, INITIAL, 2, Exchange(env));
    ReachedSnoc(env, [], a);
    Refuses(env, NEW_SERVER, a);
    ReachedSnoc(env, [] + [a], b);
    Refuses(env, QuicTampering.Reached(env, [] + [a]), b);
    ReachedSnoc(env, [] + [a] + [b], c);
    Refuses(env, QuicTampering.Reached(env, [] + [a] + [b]), c);
    packets := [] + [a] + [b] + [c];
    assert [] + [Hello(env)] + [Answer(env)] + [Exchange(env)] == [Hello(env), Answer(env), Exchange(env)];
  }

  /**
    With the server's ephemeral key known beforehand, a client and a server can agree on three
    messages that the server refused as hellos, and the server accepts the ClientFinished. By
    ClientAccepts the client is in the state whose ClientFinished this is.
  */
  lemma PredictedKeyAccepted(env: Env, now: int) returns (packets: seq<Packet>, p: Packet)
    requires Setting(env, now) && Usable(env) && NegotiatedMode(Other(env), env.server) == Some("baseline") && AllShort(env)
    ensures p.payload == Finish(env) && PollutedServer.Establishes(env, packets, p)
    ensures [Hello(env), Answer(env), Exchange(env)] <= QuicTampering.Reached(env, packets).st.transcript
    ensures QuicTampering.RefusedHello(env.server, Hello(env)) && QuicTampering.RefusedHello(env.server, Answer(env)) &&
            QuicTampering.RefusedHello(env.server, Exchange(env))
  {
    hide Setting, HashesHaveFixedSize, IsMessage, Decoded, ServerHandle, QuicTampering.RefusedHello, ClientHelloBytes,
         HonestServerHello, HonestKeyExchange, HonestSecret, NegotiatedMode, Pow256, WithSecrets, ReceiveClientFinished,
         ClientFinishedMac, Serialize, Deserialize, DecodeBytesField, QuicTampering.Reached;
    SideHasKeys(env);
    AllRefused(env, now);
    var first := Polluted(env, now);
    var s := QuicTampering.Reached(env, first);
    var d, e := PacketOf(env, INITIAL, 3, ClientHelloBytes(Other(env))), PacketOf(env, HANDSHAKE, 4, Exchange(env));
    ShortDecoded(env, INITIAL, 3, ClientHelloBytes(Other(env)));
    ShortDecoded(env, HANDSHAKE, 4, Exchange(env));
    ShortDecoded(env, HANDSHAKE, 5, Finish(env));
    ReachedSnoc(env, first, d);
    AnswersOther(env, now, s, d);
    var s' := ServerHandle(env, s, d).0;
    ReachedSnoc(env, first + [d], e);
    AnswersExchange(env, now, s', e);
    packets, p := first + [d] + [e], PacketOf(env, HANDSHAKE, 5, Finish(env));
    var s'' := ServerHandle(env, s', e).0;
    var t := [Hello(env), Answer(env), Exchange(env), ClientHelloBytes(Other(env)), Answer(env), Exchange(env)];
    assert State([Hello(env), Answer(env), Exchange(env)], None, None, None).transcript + [t[3]] + [t[4]] + [t[5]] == t;
    var sf :| s''.st == Appended(WithSecrets(env.c, Appended(s'.st, e.payload), Secret(env)), sf);
    FinishReads(env);
    ServerAccepts(env, now, s''.st, t[3], sf, Finish(env));
    Accepted(env, s'', p);
    KeptTranscript(env.c, State(t, None, None, None), Secret(env), sf);
    assert [Hello(env), Answer(env), Exchange(env)] <= t + [sf];
  }

  lemma SideHasKeys(env: Env)
    requires Usable(env) && NegotiatedMode(Other(env), env.server).Some?
    ensures ClientSide3(env).clientFinKey.Some? && ClientSide3(env).transcript == [Hello(env), Answer(env), Exchange(env)]
  {
    hide NegotiatedMode, HashesHaveFixedSize, IsMessage, ClientHelloBytes, HonestServerHello, HonestKeyExchange;
  }

  lemma KeptTranscript(c: Suite, st: State, secret: Bytes, sf: Bytes)
    requires HashesHaveFixedSize(c)
    ensures Appended(WithSecrets(c, st, secret), sf).transcript == st.transcript + [sf]
  {
  }

  lemma FinishReads(env: Env)
    requires Usable(env) && NegotiatedMode(Other(env), env.server).Some? && ClientSide3(env).clientFinKey.Some?
    ensures HandshakeTampering.CarriesMac(Finish(env), ClientFinishedMac(env.c, ClientSide3(env)))
    ensures !IsClientKeyExchange(Finish(env))
  {
    hide NegotiatedMode, HashesHaveFixedSize, IsMessage, ClientSide3, Serialize, Deserialize, DecodeBytesField, Find, ClientFinishedMac;
    FinishedDecodes("ClientFinished", ClientFinishedMac(env.c, ClientSide3(env)));
    assert |"ClientFinished"| != |"ClientKeyExchange"|;
  }

  lemma Accepted(env: Env, s: ServerSide, p: Packet)
    requires Usable(env) && Decoded(p) && s.phase.AwaitClientFinished? && p.packetType == HANDSHAKE && !IsClientKeyExchange(p.payload)
    requires ReceiveClientFinished(env.c, env.server, s.st, p.payload).1.Ok?
    ensures ServerHandle(env, s, p).0.phase.Established?
  {
    hide Usable, Decoded, ReceiveClientFinished, AckOf, IsClientKeyExchange, ClientDirection, ServerDirection;
  }
}
