/** What the invariant means for whole runs of the datagram transport. */
module QuicTheorems {
  import opened ByteStrings
  import opened CanonicalJson
  import opened Messages
  import opened Primitives
  import opened Handshake
  import opened HandshakeMessages
  import opened HandshakeRun
  import opened QuicPackets
  import opened QuicEndpoints
  import opened QuicRun
  import opened QuicScript
  import opened QuicSafety

  // ---------------------------------------------------------------------------------------------
  // The handshake
  // ---------------------------------------------------------------------------------------------

  /** The transcript that a whole handshake leaves. */
  ghost function WholeTranscript(env: Env): (t: seq<Bytes>)
    requires Shared(env)
    ensures |t| == 5
  {
    [CH(env), SH(env), CKE(env), SF(env), CF(env)]
  }

  /** How many messages the server's transcript holds in each phase. */
  function MessagesIn(phase: ServerPhase): (n: nat)
    ensures n <= 5
  {
    match phase
    case AwaitInitial => 0
    case AwaitKeyExchange => 2
    case AwaitClientFinished => 4
    case Established => 5
  }

  /** The states of the script, as parts of the whole transcript. */
  lemma ScriptTranscripts(env: Env)
    requires Shared(env)
    ensures var h, t := ScriptOf(env), WholeTranscript(env);
            FRESH.transcript == t[..0] && h.afterHello.transcript == t[..2] &&
            h.afterFinished.transcript == t[..4] && h.atEnd.transcript == t[..5]
  {
    hide Shared, KeyedOver, CH, SH, CKE, SF, CF, ServerSecret, PartialSession, FinalKeys, HashesHaveFixedSize, AfterKeyExchange;
    SharedParts(env);
    KeyedOverHas(env.c, CH(env), SH(env), CKE(env), ServerSecret(env));
  }

  lemma TranscriptOfPhase(env: Env, s: ServerSide)
    requires Shared(env) && ServerOk(ScriptOf(env), s)
    ensures s.st.transcript == WholeTranscript(env)[..MessagesIn(s.phase)]
  {
    hide Shared, WholeTranscript, ScriptOf;
    ScriptTranscripts(env);
  }

  /** The sessions of the script agree and are for the mode the two sides share. */
  lemma ScriptSessions(env: Env)
    requires Shared(env) && NegotiatedMode(env.client, env.server).Some?
    ensures var h := ScriptOf(env);
            SessionsAgree(h.clientSession, h.serverSession) &&
            h.serverSession.handshakeMode == Str(NegotiatedMode(env.client, env.server).value)
  {
    hide Shared, NegotiatedMode, HonestClientSession, ClientDirection, ServerDirection, FinalKeys, CH, SH, CKE, SF, CF,
         AfterHello, AfterFinished, AfterKeyExchange, AtEnd;
    ModeAndKeyId(env);
    HonestFields(env);
  }

  /**
    In every run, under loss, duplication, delay, reordering and retransmission, the server's
    transcript is the part of [CH, SH, CKE, SF, CF] that belongs to its phase; and when the server
    is established the client has computed a session with the same keys, IVs, exporter secret,
    binding ids, session id and mode.
  */
  lemma HandshakeSafe(env: Env, trace: seq<System>, events: seq<Event>, i: nat)
    requires Sound(env) && Usable(env) && IsRun(env, trace, events) && i < |trace|
    ensures trace[i].server.st.transcript == WholeTranscript(env)[..MessagesIn(trace[i].server.phase)]
    ensures trace[i].server.phase.Established? ==>
              && trace[i].client.session.Some? && trace[i].server.session.Some?
              && SessionsAgree(trace[i].client.session.value, trace[i].server.session.value)
              && trace[i].server.session.value.handshakeMode == Str(NegotiatedMode(env.client, env.server).value)
  {
    hide Sound, Shared, Usable, NegotiatedMode, IsRun, ScriptOf, FromClient, FromServer, SessionsAgree, AppOk, WholeTranscript,
         ClientStateOk;
    SoundIsShared(env);
    var log := RunIsSafe(env, trace, events, i);
    TranscriptOfPhase(env, trace[i].server);
    ScriptSessions(env);
  }

  /** A client whose secret is not the server's raises on each message it can get instead of a ServerFinished. */
  lemma StaysWithoutSession(env: Env, cl: ClientSide, s: ServerSide, p: Packet, now: int, log: Log)
    requires Sound(env) && Usable(env) && Shared(env) && ClientSecret(env) != ServerSecret(env)
    requires EndsOk(env, ScriptOf(env), cl, s, log) && FromServer(env, ScriptOf(env), s, p) && Decoded(p)
    requires cl.session.None?
    ensures ClientHandle(env, cl, p, now).0.session.None?
  {
    hide Sound, Shared, Usable, Decoded, ClientSecret, ServerSecret, CH, SH, CKE, SF, CF, AfterHello, AfterKeyExchange,
         AfterFinished, AtEnd, PartialSession, SessionOfClient, SessionOfServer, ReceiveServerHello, ReceiveServerFinished,
         SendClientFinished, AppOk, ServerOk, IsSealed, AckOf, OpenApp, ClientDirection, ServerDirection, Linked,
         HashesHaveFixedSize;
    ServerFinishedStep(env);
    RepeatedServerHelloStep(env);
  }

  /**
    A run that opens a session is one in which client and server hold the same secret: a client that
    trusts another key, and so computes another secret, never gets a session and its server is never
    established.
  */
  lemma {:induction false} SessionsNeedOneSecret(env: Env, trace: seq<System>, events: seq<Event>, i: nat)
    requires Sound(env) && Usable(env) && Shared(env) && ClientSecret(env) != ServerSecret(env)
    requires IsRun(env, trace, events) && i < |trace|
    ensures trace[i].client.session.None? && !trace[i].server.phase.Established?
  {
    hide Sound, Shared, Usable, Decoded, ClientSecret, ServerSecret, ScriptOf, ClientHandle, ServerHandle, SetOf, AppPacket, FromServer,
         FromClient, SendClientHello, AppOk, ServerOk;
    var log := RunIsSafe(env, trace, events, i);
    if i > 0 {
      SessionsNeedOneSecret(env, trace, events, i - 1);
      log := RunIsSafe(env, trace, events, i - 1);
      assert trace[i - 1 + 1] == Next(env, trace[i - 1], events[i - 1]);
      if events[i - 1].ClientReceives? {
        StaysWithoutSession(env, trace[i - 1].client, trace[i - 1].server, events[i - 1].packet, events[i - 1].now, log);
      }
    }
  }

  /** No packet takes the server back to an earlier phase. */
  lemma PhaseGrows(env: Env, s: ServerSide, p: Packet)
    requires Usable(env) && Decoded(p)
    ensures MessagesIn(s.phase) <= MessagesIn(ServerHandle(env, s, p).0.phase)
  {
    hide Usable, Decoded, ReceiveClientHello, ReceiveClientKeyExchange, ReceiveClientFinished, AckOf, HandleRequest, OpenApp,
         AppPacket, IsClientKeyExchange, ClientDirection, ServerDirection;
  }

  lemma StepGrows(env: Env, s: System, e: Event)
    requires Usable(env) && Enabled(s, e)
    ensures MessagesIn(s.server.phase) <= MessagesIn(Next(env, s, e).server.phase)
  {
    hide Usable, Decoded, ServerHandle, ClientHandle, SendRequest, Connect, SetOf, MessagesIn;
    if e.ServerReceives? {
      PhaseGrows(env, s.server, e.packet);
    }
  }

  lemma {:induction false} PhasesGrow(env: Env, trace: seq<System>, events: seq<Event>, i: nat, j: nat)
    requires Usable(env) && IsRun(env, trace, events) && i <= j < |trace|
    ensures MessagesIn(trace[i].server.phase) <= MessagesIn(trace[j].server.phase)
    decreases j
  {
    hide Usable, Enabled, Next, MessagesIn;
    if i < j {
      PhasesGrow(env, trace, events, i, j - 1);
      StepGrows(env, trace[j - 1], events[j - 1]);
      assert trace[j - 1 + 1] == Next(env, trace[j - 1], events[j - 1]);
    }
  }

  /**
    Each handshake message takes effect at most once: the transcript only grows, so a message that
    one step added is never added by a later step.
  */
  lemma HandlersActOnce(env: Env, trace: seq<System>, events: seq<Event>, i: nat, j: nat)
    requires Sound(env) && Usable(env) && IsRun(env, trace, events) && i <= j < |trace|
    ensures trace[i].server.st.transcript <= trace[j].server.st.transcript
    ensures trace[i].server.phase == trace[j].server.phase ==> trace[i].server.st == trace[j].server.st
    ensures trace[i].server.phase != trace[j].server.phase ==> |trace[i].server.st.transcript| < |trace[j].server.st.transcript|
  {
    hide Sound, Shared, Usable, NegotiatedMode, IsRun, SessionsAgree, WholeTranscript, ScriptOf, AppOk, FromClient, FromServer,
         ClientOk, Linked;
    SoundIsShared(env);
    HandshakeSafe(env, trace, events, i);
    HandshakeSafe(env, trace, events, j);
    PhasesGrow(env, trace, events, i, j);
    var log := RunIsSafe(env, trace, events, i);
    log := RunIsSafe(env, trace, events, j);
  }

  /** Without a shared mode a ClientHello that is seen again is appended again: [CH, CH]. */
  lemma RepeatedHelloIff(env: Env, p: Packet)
    requires Correct(env.c) && IsMessage(env.server.cert) && Usable(env) && Decoded(p)
    requires |env.server.ltSk| == KEM_SECRET_KEY_SIZE && |env.server.ephSk| == KEM_SECRET_KEY_SIZE
    requires p.packetType == INITIAL && p.payload == ClientHelloBytes(env.client)
    ensures var once := ServerHandle(env, NEW_SERVER, p).0;
            var twice := ServerHandle(env, once, p).0;
            if NegotiatedMode(env.client, env.server).Some?
            then twice.st == once.st && twice.phase.AwaitKeyExchange?
            else twice.st.transcript == [p.payload, p.payload] && twice.phase.AwaitInitial?
  {
    hide Usable, Decoded, AckOf, Correct, IsMessage, ReceiveClientHello, ClientHelloBytes, HonestServerHello, NegotiatedMode;
    if NegotiatedMode(env.client, env.server).Some? {
      assert ModesCompatible(env.c, env.client, env.server);
      ServerAnswersClientHello(env.c, env.client, env.server);
    } else {
      HelloRefused(env, FRESH);
      HelloRefused(env, Appended(FRESH, p.payload));
    }
  }

  lemma HelloRefused(env: Env, st: State)
    requires IsMessage(env.server.cert) && NegotiatedMode(env.client, env.server).None?
    ensures var r := ReceiveClientHello(env.c, env.server, st, ClientHelloBytes(env.client));
            r.0 == Appended(st, ClientHelloBytes(env.client)) && r.1.Raise?
  {
    hide ClientHelloBytes, Deserialize, ModeList, OfferedModes, NegotiatedMode, IsMessage, Find, ServerHello, Serialize, ChooseMode;
    ClientHelloDecodes(env.client);
    ModeChosen(env.client, env.server);
  }
}
