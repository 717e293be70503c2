/** The safety claims are about something: environments exist, and in each a run that establishes both sides. */
module QuicProgress {
  import opened Wrappers
  import opened ByteStrings
  import opened CanonicalJson
  import opened Messages
  import opened Primitives
  import opened KeySchedule
  import opened Handshake
  import opened Application
  import opened HandshakeRun
  import opened QuicPackets
  import QuicReliability
  import opened QuicEndpoints
  import opened QuicRun
  import opened QuicScript
  import opened QuicSafety
  import Base64Url
  import RecordLayer

  /** Every handshake message fits a datagram's length field, and the connection id its own. */
  predicate Fits(env: Env, h: Script) {
    1 <= |env.connectionId| <= 255 && |h.ch| < Pow256(4) && |h.sh| < Pow256(4) && |h.cke| < Pow256(4) && |h.sf| < Pow256(4) &&
    |h.cf| < Pow256(4)
  }

  lemma SmallNumbers()
    ensures Pow256(8) > 100
  {
    Pow256Values();
  }

  lemma HandshakeDecoded(env: Env, n: nat, payload: Bytes)
    requires 1 <= |env.connectionId| <= 255 && |payload| < Pow256(4) && n < 100
    ensures Decoded(HandshakePacket(env, n, payload))
  {
    SmallNumbers();
    hide Pow256;
  }

  function FirstPacket(env: Env, h: Script): Packet {
    Packet(INITIAL, env.connectionId, 0, h.ch, 0, PACKET_VERSION)
  }

  lemma RunSnoc(env: Env, trace: seq<System>, events: seq<Event>, e: Event)
    requires Usable(env) && IsRun(env, trace, events) && Enabled(trace[|events|], e)
    ensures IsRun(env, trace + [Next(env, trace[|events|], e)], events + [e])
  {
    hide Usable, Enabled, Next;
    var trace', events' := trace + [Next(env, trace[|events|], e)], events + [e];
    forall i | 0 <= i < |events'| ensures Enabled(trace'[i], events'[i]) && trace'[i + 1] == Next(env, trace'[i], events'[i]) {
      if i < |events| {
        assert trace'[i] == trace[i] && events'[i] == events[i] && trace'[i + 1] == trace[i + 1];
      }
    }
  }

  /** No request was sent or handled yet. */
  predicate NothingAsked(s: System) {
    s.client.requests == [] && s.client.received == [] && s.client.processed == {} &&
    s.server.handled == [] && s.server.replies == [] && s.server.processed == {}
  }

  /** What is to be kept of a state between the steps of the run. */
  predicate Stage(s: System, client: ClientPhase, clientState: State, clientNext: nat, server: ServerPhase, serverState: State,
                  serverNext: nat)
  {
    NothingAsked(s) &&
    s.client.phase == client && s.client.st == clientState && s.client.next == clientNext &&
    s.server.phase == server && s.server.st == serverState && s.server.next == serverNext
  }

  lemma Connecting(env: Env, h: Script)
    requires Usable(env) && Follows(env, h)
    ensures var s := Next(env, START, Connects);
            Stage(s, AwaitServerHello, State([h.ch], None, None, None), 1, AwaitInitial, FRESH, 0) && FirstPacket(env, h) in s.toServer
  {
    hide Usable, Follows, SendClientHello;
    ConnectFact(env, h);
  }

  lemma AnsweringHello(env: Env, h: Script, s: System)
    requires Usable(env) && Follows(env, h) && Fits(env, h)
    requires Stage(s, AwaitServerHello, State([h.ch], None, None, None), 1, AwaitInitial, FRESH, 0) && FirstPacket(env, h) in s.toServer
    ensures Enabled(s, ServerReceives(FirstPacket(env, h)))
    ensures var s' := Next(env, s, ServerReceives(FirstPacket(env, h)));
            Stage(s', AwaitServerHello, State([h.ch], None, None, None), 1, AwaitKeyExchange, h.afterHello, 2) &&
            HandshakePacket(env, 1, h.sh) in s'.toClient
  {
    SmallNumbers();
    hide Usable, Follows, ReceiveClientHello, AckOf, Pow256;
    HelloFact(env, h);
  }

  lemma AnsweringServerHello(env: Env, h: Script, s: System, now: int)
    requires Usable(env) && Follows(env, h) && Fits(env, h)
    requires Stage(s, AwaitServerHello, State([h.ch], None, None, None), 1, AwaitKeyExchange, h.afterHello, 2)
    requires HandshakePacket(env, 1, h.sh) in s.toClient
    requires ReceiveServerHello(env.c, env.client, State([h.ch], None, None, None), h.sh, now) == (h.afterKeyExchange, Ok((h.cke, h.partial)))
    ensures Enabled(s, ClientReceives(HandshakePacket(env, 1, h.sh), now))
    ensures var s' := Next(env, s, ClientReceives(HandshakePacket(env, 1, h.sh), now));
            Stage(s', AwaitServerFinished(h.partial), h.afterKeyExchange, 3, AwaitKeyExchange, h.afterHello, 2) &&
            HandshakePacket(env, 2, h.cke) in s'.toServer
  {
    hide Usable, Follows, ReceiveServerHello, AckOf, Decoded;
    HandshakeDecoded(env, 1, h.sh);
  }

  lemma AnsweringKeyExchange(env: Env, h: Script, s: System)
    requires Usable(env) && Follows(env, h) && Fits(env, h)
    requires Stage(s, AwaitServerFinished(h.partial), h.afterKeyExchange, 3, AwaitKeyExchange, h.afterHello, 2)
    requires HandshakePacket(env, 2, h.cke) in s.toServer
    ensures Enabled(s, ServerReceives(HandshakePacket(env, 2, h.cke)))
    ensures var s' := Next(env, s, ServerReceives(HandshakePacket(env, 2, h.cke)));
            Stage(s', AwaitServerFinished(h.partial), h.afterKeyExchange, 3, AwaitClientFinished, h.afterFinished, 4) &&
            HandshakePacket(env, 3, h.sf) in s'.toClient
  {
    hide Usable, Follows, ReceiveClientKeyExchange, AckOf, Decoded, IsClientKeyExchange;
    HandshakeDecoded(env, 2, h.cke);
    KeyExchangeFact(env, h);
  }

  lemma AnsweringServerFinished(env: Env, h: Script, s: System, now: int)
    requires Usable(env) && Follows(env, h) && Fits(env, h)
    requires Stage(s, AwaitServerFinished(h.partial), h.afterKeyExchange, 3, AwaitClientFinished, h.afterFinished, 4)
    requires HandshakePacket(env, 3, h.sf) in s.toClient
    requires ReceiveServerFinished(env.c, h.afterKeyExchange, h.sf, h.partial) == (h.afterFinished, Ok(h.clientSession))
    ensures Enabled(s, ClientReceives(HandshakePacket(env, 3, h.sf), now))
    ensures var s' := Next(env, s, ClientReceives(HandshakePacket(env, 3, h.sf), now));
            Stage(s', Open, h.atEnd, 5, AwaitClientFinished, h.afterFinished, 4) && HandshakePacket(env, 4, h.cf) in s'.toServer
  {
    hide Usable, Follows, ReceiveServerFinished, SendClientFinished, AckOf, Decoded, ClientDirection, ServerDirection;
    HandshakeDecoded(env, 3, h.sf);
    ServerFinishedFact(env, h);
  }

  lemma NotKeyExchangeFact(env: Env, h: Script)
    requires Usable(env) && Follows(env, h)
    ensures !IsClientKeyExchange(h.cf)
  {
    hide SendClientHello, ReceiveClientHello, ReceiveServerHello, ReceiveClientKeyExchange, ReceiveServerFinished,
         ReceiveClientFinished, SendClientFinished, IsClientKeyExchange, ClientDirection, ServerDirection, Usable, AeadCorrect;
  }

  lemma AnsweringClientFinished(env: Env, h: Script, s: System)
    requires Usable(env) && Follows(env, h) && Fits(env, h)
    requires Stage(s, Open, h.atEnd, 5, AwaitClientFinished, h.afterFinished, 4) && HandshakePacket(env, 4, h.cf) in s.toServer
    ensures Enabled(s, ServerReceives(HandshakePacket(env, 4, h.cf)))
    ensures var s' := Next(env, s, ServerReceives(HandshakePacket(env, 4, h.cf)));
            Stage(s', Open, h.atEnd, 5, Established, h.atEnd, 5)
  {
    hide Usable, Follows, ReceiveClientFinished, AckOf, Decoded, IsClientKeyExchange, ClientDirection, ServerDirection;
    HandshakeDecoded(env, 4, h.cf);
    NotKeyExchangeFact(env, h);
    ClientFinishedFact(env, h);
  }

  /** When the client trusts the server at this time, some run opens the client and establishes the server. */
  lemma EstablishingRun(env: Env, now: int) returns (trace: seq<System>, events: seq<Event>)
    requires Shared(env) && Usable(env) && Fits(env, ScriptOf(env))
    requires NegotiatedMode(env.client, env.server).Some?
    requires Trusts(env.c, env.client, env.server, NegotiatedMode(env.client, env.server).value, now)
    ensures Sound(env) && IsRun(env, trace, events)
    ensures Stage(trace[|events|], Open, ScriptOf(env).atEnd, 5, Established, ScriptOf(env).atEnd, 5)
  {
    hide Sound, Shared, Usable, Follows, Fits, ScriptOf, Trusts, NegotiatedMode, Next, Enabled, HandshakePacket, FirstPacket;
    var h := ScriptOf(env);
    TrustedHelloStep(env, now);
    SoundFollows(env);
    trace, events := [START], [];
    Connecting(env, h);
    StartEnabled();
    trace, events := Extend(env, trace, events, Connects);
    AnsweringHello(env, h, trace[|events|]);
    trace, events := Extend(env, trace, events, ServerReceives(FirstPacket(env, h)));
    AnsweringServerHello(env, h, trace[|events|], now);
    trace, events := Extend(env, trace, events, ClientReceives(HandshakePacket(env, 1, h.sh), now));
    AnsweringKeyExchange(env, h, trace[|events|]);
    trace, events := Extend(env, trace, events, ServerReceives(HandshakePacket(env, 2, h.cke)));
    AnsweringServerFinished(env, h, trace[|events|], now);
    trace, events := Extend(env, trace, events, ClientReceives(HandshakePacket(env, 3, h.sf), now));
    AnsweringClientFinished(env, h, trace[|events|]);
    trace, events := Extend(env, trace, events, ServerReceives(HandshakePacket(env, 4, h.cf)));
  }

  // ---------------------------------------------------------------------------------------------
  // Requests after the handshake
  // ---------------------------------------------------------------------------------------------

  lemma SessionIvs(env: Env)
    requires Shared(env)
    ensures |ScriptOf(env).clientKey.iv| == |ScriptOf(env).serverKey.iv| == 12
  {
    hide Shared, CH, SH, CKE, SF, CF, ClientApplicationSecret, ServerApplicationSecret, Base64Url.Encode, TranscriptHash, AfterHello,
         AfterKeyExchange, AfterFinished, AtEnd, PartialSession, ServerKeyed;
  }

  /** A message that fits a datagram is sealed into a packet. */
  lemma Sealed(env: Env, d: RecordLayer.Direction, m: Numbered)
    requires AeadCorrect(env.c) && |d.iv| == 12 && 1 <= |env.connectionId| <= 255
    requires m.number < 100 && |m.bytes| + TAG_SIZE < Pow256(4)
    ensures AppPacket(env, Some(d), m).Ok? && Decoded(AppPacket(env, Some(d), m).value)
    ensures OpenApp(env, d, AppPacket(env, Some(d), m).value) == Ok(m.bytes)
  {
    SmallNumbers();
    OpenOfSeal(env, d, m);
    hide Pow256, BigEndian;
  }

  /** Both sides hold the session's keys; the numbers that come next; what was asked, handled, answered and received. */
  predicate Serving(env: Env, h: Script, s: System, clientNext: nat, serverNext: nat, requests: seq<Numbered>, handled: seq<Handled>,
                    received: seq<Bytes>)
  {
    s.client.phase.Open? && s.client.sender == Some(h.clientKey) && s.client.receiver == Some(h.serverKey) &&
    s.server.phase.Established? && s.server.session == Some(h.serverSession) &&
    s.server.sender == Some(h.serverKey) && s.server.receiver == Some(h.clientKey) &&
    s.client.processed == {} && s.server.processed == {} &&
    s.client.next == clientNext && s.server.next == serverNext &&
    s.client.requests == requests && s.server.handled == handled && s.client.received == received
  }

  lemma Asking(env: Env, h: Script, s: System, n: nat, m: nat, requests: seq<Numbered>, request: Bytes)
    requires Usable(env) && Serving(env, h, s, n, m, requests, [], []) && AppPacket(env, Some(h.clientKey), Numbered(n, request)).Ok?
    ensures Enabled(s, Requests(request))
    ensures var s' := Next(env, s, Requests(request));
            Serving(env, h, s', n + 1, m, requests + [Numbered(n, request)], [], []) &&
            s.toServer <= s'.toServer && AppPacket(env, Some(h.clientKey), Numbered(n, request)).value in s'.toServer
  {
    hide Usable, AppPacket;
  }

  /** The server runs the application on the request and sends its answer. */
  lemma Answering(env: Env, h: Script, s: System, n: nat, m: nat, requests: seq<Numbered>, request: Numbered, reply: Bytes)
    requires Usable(env) && Serving(env, h, s, n, m, requests, [], [])
    requires AppPacket(env, Some(h.clientKey), request).Ok? && Decoded(AppPacket(env, Some(h.clientKey), request).value)
    requires OpenApp(env, h.clientKey, AppPacket(env, Some(h.clientKey), request).value) == Ok(request.bytes)
    requires AppPacket(env, Some(h.clientKey), request).value in s.toServer
    requires HandleRequest(env, [], h.serverSession, request.bytes) == Ran(request.bytes, Ok(reply))
    requires AppPacket(env, Some(h.serverKey), Numbered(m + 1, reply)).Ok?
    ensures var p := AppPacket(env, Some(h.clientKey), request).value;
            Enabled(s, ServerReceives(p)) &&
            var s' := Next(env, s, ServerReceives(p));
            s'.client == s.client && s'.server.handled == [Ran(request.bytes, Ok(reply))] &&
            AppPacket(env, Some(h.serverKey), Numbered(m + 1, reply)).value in s'.toClient
  {
    hide Usable, QuicReliability.SealPacket, OpenApp, AckOf, HandleRequest, Decoded;
  }

  lemma Receiving(env: Env, h: Script, s: System, reply: Numbered, now: int)
    requires Usable(env) && s.client.phase.Open? && s.client.receiver == Some(h.serverKey)
    requires s.client.processed == {} && s.client.received == []
    requires AppPacket(env, Some(h.serverKey), reply).Ok? && Decoded(AppPacket(env, Some(h.serverKey), reply).value)
    requires OpenApp(env, h.serverKey, AppPacket(env, Some(h.serverKey), reply).value) == Ok(reply.bytes)
    requires AppPacket(env, Some(h.serverKey), reply).value in s.toClient
    ensures var p := AppPacket(env, Some(h.serverKey), reply).value;
            Enabled(s, ClientReceives(p, now)) &&
            var s' := Next(env, s, ClientReceives(p, now));
            s'.client.received == [reply.bytes] && s'.client.requests == s.client.requests && s'.server == s.server
  {
    hide Usable, QuicReliability.SealPacket, OpenApp, AckOf, Decoded;
  }

  lemma EstablishedServes(env: Env, s: System, log: Log)
    requires Shared(env) && EndsOk(env, ScriptOf(env), s.client, s.server, log)
    requires Stage(s, Open, ScriptOf(env).atEnd, 5, Established, ScriptOf(env).atEnd, 5)
    ensures Serving(env, ScriptOf(env), s, 5, 5, [], [], [])
  {
    hide Shared, ScriptOf, AppOk;
  }

  /** The application answers this request, and both fit a datagram. */
  predicate Answerable(env: Env, session: Session, request: Bytes) {
    env.parses(request) && |request| + TAG_SIZE < Pow256(4) &&
    env.app([], session, request).Ok? && |env.app([], session, request).value| + TAG_SIZE < Pow256(4)
  }

  /**
    A run in which the client asks a, then asks b when the reply to a is still outstanding, and gets
    the reply to a: whatever call sent b returns it. Without b it is a run that serves a request.
  */
  lemma LateReplyRun(env: Env, now: int, a: Bytes, b: Option<Bytes>) returns (trace: seq<System>, events: seq<Event>)
    requires Shared(env) && Usable(env) && Fits(env, ScriptOf(env))
    requires NegotiatedMode(env.client, env.server).Some?
    requires Trusts(env.c, env.client, env.server, NegotiatedMode(env.client, env.server).value, now)
    requires Answerable(env, ScriptOf(env).serverSession, a) && (b.Some? ==> |b.value| + TAG_SIZE < Pow256(4))
    ensures IsRun(env, trace, events) && |events| >= 3
    ensures b.Some? ==> events[|events| - 3] == Requests(b.value) && trace[|events| - 3].client.received == []
    ensures var last := trace[|events|];
            last.client.requests == [Numbered(5, a)] + (if b.Some? then [Numbered(6, b.value)] else []) &&
            last.client.received == [env.app([], ScriptOf(env).serverSession, a).value]
  {
    hide Sound, Shared, Usable, Follows, Fits, ScriptOf, Trusts, NegotiatedMode, Next, Enabled, AppPacket, EndsOk, OpenApp, Decoded,
         Pow256, Stage;
    var h := ScriptOf(env);
    var reply := env.app([], h.serverSession, a).value;
    trace, events := EstablishingRun(env, now);
    ghost var log := RunIsSafe(env, trace, events, |events|);
    EstablishedServes(env, trace[|events|], log);
    SessionIvs(env);
    AeadFromShared(env);
    FitsConnectionId(env);
    Sealed(env, h.clientKey, Numbered(5, a));
    Sealed(env, h.serverKey, Numbered(6, reply));
    Asking(env, h, trace[|events|], 5, 5, [], a);
    trace, events := Extend(env, trace, events, Requests(a));
    var requests := [] + [Numbered(5, a)];
    ghost var clientNext := 6;
    if b.Some? {
      Sealed(env, h.clientKey, Numbered(6, b.value));
      Asking(env, h, trace[|events|], 6, 5, requests, b.value);
      trace, events := Extend(env, trace, events, Requests(b.value));
      requests := requests + [Numbered(6, b.value)];
      clientNext := 7;
    }
    Answering(env, h, trace[|events|], clientNext, 5, requests, Numbered(5, a), reply);
    trace, events := Extend(env, trace, events, ServerReceives(AppPacket(env, Some(h.clientKey), Numbered(5, a)).value));
    Receiving(env, h, trace[|events|], Numbered(6, reply), now);
    trace, events := Extend(env, trace, events, ClientReceives(AppPacket(env, Some(h.serverKey), Numbered(6, reply)).value, now));
  }

  lemma AeadFromShared(env: Env)
    requires Shared(env)
    ensures AeadCorrect(env.c)
  {
    hide NegotiatedMode;
  }

  lemma FitsConnectionId(env: Env)
    requires Shared(env) && Fits(env, ScriptOf(env))
    ensures 1 <= |env.connectionId| <= 255
  {
    hide Shared, ScriptOf, Pow256;
  }

  lemma StartEnabled()
    ensures Enabled(START, Connects)
  {
  }

  lemma Extend(env: Env, trace: seq<System>, events: seq<Event>, e: Event) returns (trace': seq<System>, events': seq<Event>)
    requires Usable(env) && IsRun(env, trace, events) && Enabled(trace[|events|], e)
    ensures IsRun(env, trace', events') && trace'[|events'|] == Next(env, trace[|events|], e)
    ensures trace <= trace' && events' == events + [e]
  {
    hide Usable, Enabled, Next;
    RunSnoc(env, trace, events, e);
    trace', events' := trace + [Next(env, trace[|events|], e)], events + [e];
  }

  lemma TrustedAtThisTime(env: Env, now: int)
    requires Shared(env) && IsMessage(env.server.cert) && NegotiatedMode(env.client, env.server).Some?
    requires Trusts(env.c, env.client, env.server, NegotiatedMode(env.client, env.server).value, now)
    ensures TrustedKeys(env) == HonestKeys(env.c, env.client, env.server)
    ensures ReceiveServerHello(env.c, env.client, State([CH(env)], None, None, None), SH(env), now).1.Ok?
  {
    hide CheckServerHello, KeyExchange, TrustedKeys, Trusts, NegotiatedMode, HonestKeys, HonestServerHello, ClientHelloBytes, Correct,
         HonestKeyExchange, HonestSecret, WithSecrets, IsMessage, HonestClientSession, Deserialize;
    var keys := HonestKeys(env.c, env.client, env.server);
    ServerHelloChecks(env.c, env.client, env.server, now);
    ClientEncapsulates(env.c, env.client, env.server);
    ClientAnswersServerHello(env.c, env.client, env.server, now);
    assert CheckServerHello(env.c, env.client, HelloValue(env), now) == Ok(keys);
    AcceptedAreTrusted(env, keys);
  }

  /** A client that trusts the server at this time accepts its ServerHello, and later its ServerFinished. */
  lemma TrustedHelloStep(env: Env, now: int)
    requires Shared(env) && Usable(env) && NegotiatedMode(env.client, env.server).Some?
    requires Trusts(env.c, env.client, env.server, NegotiatedMode(env.client, env.server).value, now)
    ensures Sound(env)
    ensures var h := ScriptOf(env);
            ReceiveServerHello(env.c, env.client, State([h.ch], None, None, None), h.sh, now) == (h.afterKeyExchange, Ok((h.cke, h.partial))) &&
            ReceiveServerFinished(env.c, h.afterKeyExchange, h.sf, h.partial) == (h.afterFinished, Ok(h.clientSession))
  {
    hide Shared, HashesHaveFixedSize, IsMessage, Trusts, NegotiatedMode, CKE, SH, SF, CF, ReceiveServerHello,
         ReceiveServerFinished, Sound, CH, AfterKeyExchange, AfterFinished, AtEnd, SessionOfClient, SessionOfServer,
         PartialSession, TrustedKeys, ClientSecret, ServerSecret, HonestKeys;
    TrustedAtThisTime(env, now);
    SoundWhenTrusted(env);
    TrustedEncapsulates(env);
    ServerHelloStep(env, now);
    ServerFinishedStep(env);
  }
}
