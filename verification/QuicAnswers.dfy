/** What the server connection sends for a handshake packet, the first time and when it comes again. */
module QuicAnswers {
  import opened Wrappers
  import opened ByteStrings
  import opened CanonicalJson
  import opened Messages
  import opened Primitives
  import opened KeySchedule
  import opened Handshake
  import opened QuicPackets
  import opened QuicEndpoints
  import opened QuicRun
  import opened QuicScript
  import opened QuicSafety
  import QuicReliability
  import QuicTampering
  import QuicTheorems

  /** An acknowledgement that carries this packet's number, then a handshake packet with this payload. */
  predicate AnswersWith(env: Env, p: Packet, out: seq<Packet>, payload: Bytes)
    requires Decoded(p)
  {
    |out| == 2 && out[0].connectionId == out[1].connectionId == env.connectionId &&
    out[0].packetType == ACK && out[0].payload == BigEndian(p.packetNumber, 8) && out[0].epoch == p.epoch &&
    out[1].packetType == HANDSHAKE && out[1].payload == payload && out[1].epoch == 0
  }

  /** Only the acknowledgement. */
  predicate Acknowledges(env: Env, p: Packet, out: seq<Packet>)
    requires Decoded(p)
  {
    |out| == 1 && out[0].connectionId == env.connectionId && out[0].packetType == ACK &&
    out[0].payload == BigEndian(p.packetNumber, 8) && out[0].epoch == p.epoch
  }

  // ---------------------------------------------------------------------------------------------
  // The first time
  // ---------------------------------------------------------------------------------------------

  /** In these phases the packet is for the handler of a handshake message that was not accepted yet. */
  predicate ForHello(s: ServerSide, p: Packet) {
    s.phase.AwaitInitial? && p.packetType == INITIAL
  }

  predicate ForExchange(s: ServerSide, p: Packet) {
    s.phase.AwaitKeyExchange? && p.packetType == HANDSHAKE
  }

  predicate ForFinished(s: ServerSide, p: Packet) {
    s.phase.AwaitClientFinished? && p.packetType == HANDSHAKE && !(IsClientKeyExchange(p.payload) && s.cachedFinished.Some?)
  }

  /** It comes again: the message of a phase that is over, while the handshake is not. */
  predicate HelloAgain(s: ServerSide, p: Packet) {
    (s.phase.AwaitKeyExchange? || s.phase.AwaitClientFinished?) && p.packetType == INITIAL
  }

  predicate ExchangeAgain(s: ServerSide, p: Packet) {
    s.phase.AwaitClientFinished? && p.packetType == HANDSHAKE && IsClientKeyExchange(p.payload)
  }

  /**
    A message that is accepted is appended with its answer, and that answer is what is sent; one that
    is refused is acknowledged and the phase stays; a ClientFinished is only acknowledged.
  */
  lemma FirstAnswer(env: Env, s: ServerSide, p: Packet)
    requires Usable(env) && Decoded(p)
    ensures var (s', out) := ServerHandle(env, s, p);
            (ForHello(s, p) || ForExchange(s, p) ==>
               if s'.phase == s.phase then Acknowledges(env, p, out)
               else
                 s'.phase == (if ForHello(s, p) then AwaitKeyExchange else AwaitClientFinished) &&
                 |s'.st.transcript| == |s.st.transcript| + 2 && s.st.transcript + [p.payload] <= s'.st.transcript &&
                 AnswersWith(env, p, out, s'.st.transcript[|s.st.transcript| + 1])) &&
            (ForFinished(s, p) ==> Acknowledges(env, p, out))
  {
    hide HashesHaveFixedSize, IsMessage, ReceiveClientFinished, ReceiveClientHello, ReceiveClientKeyExchange, IsClientKeyExchange,
         Deserialize, QuicTampering.AcceptedHello, QuicTampering.AcceptedExchange, QuicTampering.RefusedHello,
         QuicTampering.RefusedExchange, WithSecrets, BigEndian, ClientDirection, ServerDirection, DecapsulateBoth;
    if ForHello(s, p) {
      QuicTampering.HelloHandled(env.c, env.server, s.st, p.payload);
    } else if ForExchange(s, p) {
      QuicTampering.ExchangeHandled(env.c, env.server, s.st, p.payload);
      ExchangeTranscript(env, s.st, p.payload);
    }
  }

  lemma ExchangeTranscript(env: Env, st: State, msg: Bytes)
    requires Usable(env)
    ensures var r := ReceiveClientKeyExchange(env.c, env.server, st, msg);
            r.1.Ok? ==> r.0.transcript == st.transcript + [msg] + [r.1.value]
  {
    hide Deserialize, Serialize, DecapsulateBoth, ServerFinishedMac, ClientFinishedKey, ServerFinishedKey, TranscriptHash;
  }

  /** Any other packet, application data of an established connection apart, is neither answered nor acted on. */
  lemma OthersIgnored(env: Env, s: ServerSide, p: Packet)
    requires Usable(env) && Decoded(p)
    requires !ForHello(s, p) && !ForExchange(s, p) && !ForFinished(s, p)
    requires !(HelloAgain(s, p) && s.cachedHello.Some?) && !(ExchangeAgain(s, p) && s.cachedFinished.Some?)
    requires !(s.phase.Established? && p.packetType == APP_DATA)
    ensures ServerHandle(env, s, p) == (s, [])
  {
    hide HashesHaveFixedSize, IsMessage, Decoded, IsClientKeyExchange, OnClientHello, OnKeyExchange, OnClientFinished, OnRequest;
  }

  /** A client acts on packets of its own connection and of the type it waits for, and on no others. */
  lemma OthersIgnoredByClient(env: Env, cl: ClientSide, p: Packet, now: int)
    requires Usable(env) && Decoded(p)
    requires p.connectionId != env.connectionId || cl.phase.Idle? || cl.phase.Failed? ||
             p.packetType != (if cl.phase.Open? then APP_DATA else HANDSHAKE)
    ensures ClientHandle(env, cl, p, now) == (cl, [])
  {
    hide HashesHaveFixedSize, IsMessage, Decoded, OnServerHello, OnServerFinished, OnReply;
  }

  // ---------------------------------------------------------------------------------------------
  // When it comes again
  // ---------------------------------------------------------------------------------------------

  /**
    After any packets, refused ones included: a ClientHello that comes again is answered with the
    answer to the accepted ClientHello, a ClientKeyExchange that comes again with the answer to the
    accepted one, both as they stand in the transcript; and the handshake state stays.
  */
  lemma RepeatedIsAnsweredAgain(env: Env, packets: seq<Packet>, p: Packet, x: QuicTampering.Shape)
    requires Usable(env) && QuicTampering.AllDecoded(packets) && Decoded(p)
    requires var s := QuicTampering.Reached(env, packets);
             QuicTampering.Fits(env.c, env.server, s, x) && (HelloAgain(s, p) || ExchangeAgain(s, p))
    ensures var s := QuicTampering.Reached(env, packets);
            var (s', out) := ServerHandle(env, s, p);
            s'.st == s.st && s'.phase == s.phase &&
            s.st.transcript == x.before + x.hello + x.between + x.exchange + x.after && |x.hello| == 2 &&
            (HelloAgain(s, p) ==> AnswersWith(env, p, out, x.hello[1])) &&
            (ExchangeAgain(s, p) ==> |x.exchange| == 2 && AnswersWith(env, p, out, x.exchange[1]))
  {
    hide HashesHaveFixedSize, IsMessage, QuicTampering.Reached, QuicTampering.PartsOk, AllDecode, IsClientKeyExchange, BigEndian,
         OnKeyExchange, OnClientHello, OnClientFinished, OnRequest;
  }

  /** In every run the second message of the transcript answers every ClientHello, and the fourth every ClientKeyExchange. */
  lemma RepeatedInRun(env: Env, trace: seq<System>, events: seq<Event>, i: nat, p: Packet)
    requires Sound(env) && Usable(env) && IsRun(env, trace, events) && i < |trace| && Decoded(p)
    requires HelloAgain(trace[i].server, p) || ExchangeAgain(trace[i].server, p)
    ensures var s := trace[i].server;
            var (s', out) := ServerHandle(env, s, p);
            s'.st == s.st && s'.phase == s.phase &&
            (HelloAgain(s, p) ==> |s.st.transcript| >= 2 && AnswersWith(env, p, out, s.st.transcript[1])) &&
            (ExchangeAgain(s, p) ==> |s.st.transcript| == 4 && AnswersWith(env, p, out, s.st.transcript[3]))
  {
    hide Sound, Shared, HashesHaveFixedSize, IsMessage, IsRun, IsClientKeyExchange, BigEndian, OnKeyExchange, OnClientHello,
         OnClientFinished, OnRequest, FromClient, FromServer, AppOk, ClientOk, Linked, SF, CF, SH, CH, CKE, AfterHello, AfterFinished,
         AfterKeyExchange, AtEnd, PartialSession, SessionOfClient, SessionOfServer, ClientDirection, ServerDirection;
    SoundIsShared(env);
    var log := RunIsSafe(env, trace, events, i);
    QuicTheorems.TranscriptOfPhase(env, trace[i].server);
  }

  /**
    So a lost ServerFinished is made good: the client sends its ClientKeyExchange again, and the
    answer opens a client that is still waiting, when both hold the same secret.
  */
  lemma RepeatedExchangeOpens(env: Env, trace: seq<System>, events: seq<Event>, i: nat, p: Packet, now: int)
    requires Sound(env) && Usable(env) && Shared(env) && ClientSecret(env) == ServerSecret(env)
    requires IsRun(env, trace, events) && i < |trace| && Enabled(trace[i], ServerReceives(p))
    requires trace[i].client.phase.AwaitServerFinished? && ExchangeAgain(trace[i].server, p)
    ensures var s' := Next(env, trace[i], ServerReceives(p));
            var out := ServerHandle(env, trace[i].server, p).1;
            |out| == 2 && out[1] in s'.toClient &&
            (Decoded(out[1]) ==>
               Enabled(s', ClientReceives(out[1], now)) && Next(env, s', ClientReceives(out[1], now)).client.phase.Open?)
  {
    hide Sound, Shared, Usable, Decoded, IsRun, ScriptOf, FromClient, FromServer, AppOk, ServerHandle, OnServerFinished, ExchangeAgain,
         BigEndian, ServerOk, Linked, ClientSecret, ServerSecret;
    RepeatedInRun(env, trace, events, i, p);
    FourthIsFinished(env, trace, events, i, p);
    var log := RunIsSafe(env, trace, events, i);
    var out := ServerHandle(env, trace[i].server, p).1;
    if Decoded(out[1]) {
      FinishedOpens(env, trace[i].client, out[1], log, trace[i].server);
    }
  }

  lemma FourthIsFinished(env: Env, trace: seq<System>, events: seq<Event>, i: nat, p: Packet)
    requires Sound(env) && Usable(env) && Shared(env) && IsRun(env, trace, events) && i < |trace| && Decoded(p)
    requires ExchangeAgain(trace[i].server, p)
    ensures |trace[i].server.st.transcript| == 4 && trace[i].server.st.transcript[3] == SF(env)
  {
    hide Sound, Shared, Usable, Decoded, IsRun, ScriptOf, FromClient, FromServer, AppOk, ClientOk, Linked, SF, CF, SH, CH, CKE, IsClientKeyExchange;
    var log := RunIsSafe(env, trace, events, i);
    QuicTheorems.TranscriptOfPhase(env, trace[i].server);
  }

  /** The ServerFinished of the script opens the waiting client. */
  lemma FinishedOpens(env: Env, cl: ClientSide, q: Packet, log: Log, s: ServerSide)
    requires Sound(env) && Usable(env) && Shared(env) && ClientSecret(env) == ServerSecret(env) && Decoded(q)
    requires EndsOk(env, ScriptOf(env), cl, s, log) && cl.phase.AwaitServerFinished?
    requires q.packetType == HANDSHAKE && q.payload == SF(env) && q.connectionId == env.connectionId
    ensures forall now :: ClientHandle(env, cl, q, now).0.phase.Open?
  {
    hide Sound, Shared, Usable, Decoded, ClientSecret, ServerSecret, CH, SH, CKE, SF, CF, AfterHello, AfterKeyExchange, AfterFinished, AtEnd,
         PartialSession, SessionOfClient, SessionOfServer, ReceiveServerFinished, SendClientFinished, AppOk, ServerOk, AckOf,
         ClientDirection, ServerDirection, Linked, HashesHaveFixedSize;
    ServerFinishedStep(env);
    FinishingStep(env);
  }

  // ---------------------------------------------------------------------------------------------
  // Requests
  // ---------------------------------------------------------------------------------------------

  /** The answer to an application packet: that of the application to a request not handled before, if there is one. */
  function AnswerTo(env: Env, s: ServerSide, p: Packet): Option<Bytes>
    requires s.receiver.Some? && s.session.Some?
  {
    var request := OpenApp(env, s.receiver.value, p);
    if p.packetNumber in s.processed || request.Raise? || !env.parses(request.value) then None
    else
      var answer := env.app(s.handled, s.session.value, request.value);
      if answer.Ok? then Some(answer.value) else None
  }

  /**
    Every application packet of an established connection is acknowledged, and nothing else is sent
    unless the application answers; then the answer follows, sealed so that it opens to just that.
  */
  lemma RequestAnswer(env: Env, s: ServerSide, p: Packet)
    requires Usable(env) && AeadCorrect(env.c) && Decoded(p) && s.phase.Established? && p.packetType == APP_DATA
    requires s.receiver.Some? && s.session.Some? && s.sender.Some?
    ensures var (s', out) := ServerHandle(env, s, p);
            var answer := AnswerTo(env, s, p);
            s'.st == s.st && s'.phase == s.phase && s'.session == s.session && s.handled <= s'.handled && s.replies <= s'.replies &&
            out != [] && Acknowledges(env, p, out[..1]) &&
            (answer.None? ==> |out| == 1) &&
            (answer.Some? ==>
               |out| == (if AppPacket(env, s.sender, Numbered(s.next + 1, answer.value)).Ok? then 2 else 1) &&
               (|out| == 2 ==>
                  out[1].packetType == APP_DATA && out[1].connectionId == env.connectionId &&
                  OpenApp(env, s.sender.value, out[1]) == Ok(answer.value)))
  {
    var answer := AnswerTo(env, s, p);
    if answer.Some? && AppPacket(env, s.sender, Numbered(s.next + 1, answer.value)).Ok? {
      OpenOfSeal(env, s.sender.value, Numbered(s.next + 1, answer.value));
    }
    hide OpenApp, HashesHaveFixedSize, IsMessage, BigEndian, AeadCorrect, QuicReliability.SealPacket;
  }
}
