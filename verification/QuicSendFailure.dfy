/**
  A server whose socket fails when it sends an answer: the handler has appended, the phase has not
  moved on, and the next copy of the message runs the handler again.
*/
module QuicSendFailure {
  import opened Wrappers
  import opened ByteStrings
  import opened CanonicalJson
  import opened Messages
  import opened Primitives
  import opened Handshake
  import opened QuicPackets
  import opened QuicEndpoints
  import QuicTampering

  /** As OnClientHello, when the socket takes the acknowledgement but not the ServerHello. */
  function OnClientHelloUnsent(env: Env, s: ServerSide, p: Packet): (ServerSide, seq<Packet>)
    requires Usable(env) && Decoded(p)
  {
    var ack := AckOf(env, s.next, p);
    var (st, answer) := ReceiveClientHello(env.c, env.server, s.st, p.payload);
    match answer
    case Raise(_) => (s.(next := s.next + 1, st := st), [ack])
    case Ok(sh) => (s.(next := s.next + 2, st := st, cachedHello := Some(sh)), [ack])
  }

  /** As OnKeyExchange, when the socket takes the acknowledgement but not the ServerFinished. */
  function OnKeyExchangeUnsent(env: Env, s: ServerSide, p: Packet): (ServerSide, seq<Packet>)
    requires Usable(env) && Decoded(p)
  {
    var ack := AckOf(env, s.next, p);
    var (st, answer) := ReceiveClientKeyExchange(env.c, env.server, s.st, p.payload);
    match answer
    case Raise(_) => (s.(next := s.next + 1, st := st), [ack])
    case Ok(sf) => (s.(next := s.next + 2, st := st, cachedFinished := Some(sf)), [ack])
  }

  /** One packet; `sent` tells whether the socket takes an answer. */
  function Handle(env: Env, s: ServerSide, p: Packet, sent: bool): ServerSide
    requires Usable(env) && Decoded(p)
  {
    if !sent && s.phase.AwaitInitial? && p.packetType == INITIAL then OnClientHelloUnsent(env, s, p).0
    else if !sent && s.phase.AwaitKeyExchange? && p.packetType == HANDSHAKE then OnKeyExchangeUnsent(env, s, p).0
    else ServerHandle(env, s, p).0
  }

  /** The messages that handling this message now appends: itself and, when it is accepted, the answer. */
  lemma HelloAppends(env: Env, s: ServerSide, p: Packet, sent: bool)
    requires Usable(env) && Decoded(p) && s.phase.AwaitInitial? && p.packetType == INITIAL
    requires Deserialize(p.payload).Ok? && !QuicTampering.RefusedHello(env.server, p.payload)
    ensures var s' := Handle(env, s, p, sent);
            |s'.st.transcript| == |s.st.transcript| + 2 && s.st.transcript + [p.payload] <= s'.st.transcript &&
            s'.phase == if sent then AwaitKeyExchange else AwaitInitial
  {
    hide HashesHaveFixedSize, IsMessage, Decoded, AckOf, ReceiveClientHello, Deserialize, QuicTampering.RefusedHello,
         QuicTampering.AcceptedHello;
    QuicTampering.HelloHandled(env.c, env.server, s.st, p.payload);
  }

  /**
    A ClientHello that is accepted and comes again is appended once exactly when its answer was sent
    the first time.
  */
  lemma HelloActsOnceIff(env: Env, s: ServerSide, p: Packet, sent: bool, again: bool)
    requires Usable(env) && Decoded(p) && s.phase.AwaitInitial? && p.packetType == INITIAL
    requires Deserialize(p.payload).Ok? && !QuicTampering.RefusedHello(env.server, p.payload)
    ensures var once := Handle(env, s, p, sent);
            var twice := Handle(env, once, p, again);
            if sent then twice.st == once.st else |twice.st.transcript| == |once.st.transcript| + 2
  {
    hide HashesHaveFixedSize, IsMessage, Decoded, Deserialize, QuicTampering.RefusedHello;
    HelloAppends(env, s, p, sent);
    var once := Handle(env, s, p, sent);
    if sent {
      RepeatedHelloIsQuiet(env, once, p, again);
    } else {
      HelloAppends(env, once, p, again);
    }
  }

  lemma RepeatedHelloIsQuiet(env: Env, s: ServerSide, p: Packet, sent: bool)
    requires Usable(env) && Decoded(p) && s.phase.AwaitKeyExchange? && p.packetType == INITIAL
    ensures Handle(env, s, p, sent).st == s.st
  {
    hide HashesHaveFixedSize, IsMessage, Decoded, AckOf, OnKeyExchange, OnClientHelloUnsent, OnKeyExchangeUnsent;
  }

  lemma ExchangeAppends(env: Env, s: ServerSide, p: Packet, sent: bool)
    requires Usable(env) && Decoded(p) && s.phase.AwaitKeyExchange? && p.packetType == HANDSHAKE
    requires Deserialize(p.payload).Ok? && !QuicTampering.RefusedExchange(env.c, env.server, p.payload)
    ensures var s' := Handle(env, s, p, sent);
            |s'.st.transcript| == |s.st.transcript| + 2 && s.st.transcript + [p.payload] <= s'.st.transcript &&
            s'.cachedFinished.Some? && s'.phase == if sent then AwaitClientFinished else AwaitKeyExchange
  {
    hide HashesHaveFixedSize, IsMessage, Decoded, AckOf, ReceiveClientKeyExchange, Deserialize, DecapsulateBoth, WithSecrets;
    QuicTampering.ExchangeHandled(env.c, env.server, s.st, p.payload);
    var secret := DecapsulateBoth(env.c, env.server, Deserialize(p.payload).value);
    KeepsTranscript(env.c, QuicTampering.Appended(s.st, p.payload), secret.value);
  }

  lemma KeepsTranscript(c: Suite, st: State, secret: Bytes)
    requires HashesHaveFixedSize(c)
    ensures WithSecrets(c, st, secret).transcript == st.transcript
  {
  }

  /** The same for a ClientKeyExchange that is accepted and comes again. */
  lemma ExchangeActsOnceIff(env: Env, s: ServerSide, p: Packet, sent: bool, again: bool)
    requires Usable(env) && Decoded(p) && s.phase.AwaitKeyExchange? && p.packetType == HANDSHAKE
    requires Deserialize(p.payload).Ok? && !QuicTampering.RefusedExchange(env.c, env.server, p.payload)
    requires IsClientKeyExchange(p.payload)
    ensures var once := Handle(env, s, p, sent);
            var twice := Handle(env, once, p, again);
            if sent then twice.st == once.st else |twice.st.transcript| == |once.st.transcript| + 2
  {
    hide HashesHaveFixedSize, IsMessage, Decoded, Deserialize, QuicTampering.RefusedExchange, IsClientKeyExchange;
    ExchangeAppends(env, s, p, sent);
    var once := Handle(env, s, p, sent);
    if sent {
      RepeatedExchangeIsQuiet(env, once, p, again);
    } else {
      ExchangeAppends(env, once, p, again);
    }
  }

  lemma RepeatedExchangeIsQuiet(env: Env, s: ServerSide, p: Packet, sent: bool)
    requires Usable(env) && Decoded(p) && s.phase.AwaitClientFinished? && p.packetType == HANDSHAKE
    requires IsClientKeyExchange(p.payload) && s.cachedFinished.Some?
    ensures Handle(env, s, p, sent).st == s.st
  {
    hide HashesHaveFixedSize, IsMessage, Decoded, AckOf, OnClientFinished, OnClientHelloUnsent, OnKeyExchangeUnsent, IsClientKeyExchange;
  }
}
