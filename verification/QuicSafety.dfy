/** What every run of the datagram transport keeps. */
module QuicSafety {
  import opened Wrappers
  import opened ByteStrings
  import opened Primitives
  import opened Handshake
  import opened Application
  import opened QuicPackets
  import opened QuicEndpoints
  import opened QuicRun
  import opened QuicScript
  import QuicReliability
  import RecordLayer

  // ---------------------------------------------------------------------------------------------
  // The invariant
  // ---------------------------------------------------------------------------------------------

  /** The client has sent a ClientKeyExchange, or has failed. */
  predicate PastHello(cl: ClientSide) {
    cl.phase.AwaitServerFinished? || cl.phase.Open? || cl.phase.Failed?
  }

  /** The server has sent a ServerFinished. */
  predicate PastKeyExchange(s: ServerSide) {
    s.phase.AwaitClientFinished? || s.phase.Established?
  }

  predicate ClientStateOk(h: Script, cl: ClientSide) {
    match cl.phase
    case Idle => cl.st == FRESH
    case AwaitServerHello => cl.st == State([h.ch], None, None, None)
    case AwaitServerFinished(partial) => cl.st == h.afterKeyExchange && partial == h.partial
    case Open => cl.st == h.atEnd && cl.session.Some?
    case Failed => true
  }

  predicate ClientOk(h: Script, cl: ClientSide) {
    ClientStateOk(h, cl) &&
    if cl.session.None? then cl.receiver.None?
    else
      (cl.phase.Open? || cl.phase.Failed?) && cl.session.value == h.clientSession &&
      cl.sender == Some(h.clientKey) && cl.receiver == Some(h.serverKey)
  }

  predicate ServerOk(h: Script, s: ServerSide) {
    (s.phase.Established? <==> s.session.Some?) && (s.receiver.Some? <==> s.session.Some?) &&
    match s.phase
    case AwaitInitial => s.st == FRESH
    case AwaitKeyExchange => s.st == h.afterHello && s.cachedHello == Some(h.sh)
    case AwaitClientFinished =>
      s.st == h.afterFinished && s.cachedHello == Some(h.sh) && s.cachedFinished == Some(h.sf)
    case Established =>
      s.st == h.atEnd && s.session == Some(h.serverSession) && s.sender == Some(h.serverKey) && s.receiver == Some(h.clientKey)
  }

  /** How far either side can be ahead of the other. */
  predicate Linked(cl: ClientSide, s: ServerSide) {
    (PastKeyExchange(s) ==> PastHello(cl)) &&
    (s.phase.Established? ==> cl.session.Some?) &&
    (cl.session.Some? ==> PastKeyExchange(s))
  }

  predicate IsSealed(env: Env, d: RecordLayer.Direction, messages: seq<Numbered>, p: Packet) {
    exists i | 0 <= i < |messages| :: AppPacket(env, Some(d), messages[i]) == Ok(p)
  }

  /** The datagrams a client in this state may have sent. */
  predicate FromClient(env: Env, h: Script, cl: ClientSide, p: Packet) {
    p.connectionId == env.connectionId &&
    (p.packetType == INITIAL ==> p.payload == h.ch) &&
    (p.packetType == HANDSHAKE ==> (p.payload == h.cke && PastHello(cl)) || (p.payload == h.cf && cl.session.Some?)) &&
    (p.packetType == APP_DATA ==> IsSealed(env, h.clientKey, cl.requests, p))
  }

  predicate FromServer(env: Env, h: Script, s: ServerSide, p: Packet) {
    p.connectionId == env.connectionId &&
    (p.packetType == HANDSHAKE ==> p.payload == h.sh || (p.payload == h.sf && PastKeyExchange(s))) &&
    (p.packetType == APP_DATA ==> IsSealed(env, h.serverKey, s.replies, p))
  }

  predicate Ordered(messages: seq<Numbered>, next: nat) {
    (forall i | 0 <= i < |messages| :: messages[i].number < next) &&
    forall i, j | 0 <= i < j < |messages| :: messages[i].number < messages[j].number
  }

  /** Which request each handling ran on, which handling each reply answers, and which reply each received one is. */
  datatype Log = Log(order: seq<nat>, answering: seq<nat>, arrival: seq<nat>)

  predicate Grows(log: Log, log': Log) {
    log.order <= log'.order && log.answering <= log'.answering && log.arrival <= log'.arrival
  }

  /** Different places in a list of n. */
  predicate Places(places: seq<nat>, n: nat) {
    (forall i | 0 <= i < |places| :: places[i] < n) && forall i, j | 0 <= i < j < |places| :: places[i] != places[j]
  }

  function NumbersAt(messages: seq<Numbered>, places: seq<nat>): set<int>
    requires Places(places, |messages|)
  {
    set i | 0 <= i < |places| :: messages[places[i]].number
  }

  /** Each request is handled at most once, on its own bytes. */
  predicate HandledOnce(env: Env, session: Session, requests: seq<Numbered>, handled: seq<Handled>, order: seq<nat>) {
    |order| == |handled| && Places(order, |requests|) &&
    forall i | 0 <= i < |handled| :: handled[i] == HandleRequest(env, handled[..i], session, requests[order[i]].bytes)
  }

  /** Each reply is the application's answer to one handled request. */
  predicate Answered(handled: seq<Handled>, replies: seq<Numbered>, answering: seq<nat>) {
    |answering| == |replies| && Places(answering, |handled|) &&
    forall i | 0 <= i < |replies| :: handled[answering[i]].Ran? && handled[answering[i]].outcome == Ok(replies[i].bytes)
  }

  /** Each reply is received at most once. */
  predicate Arrived(replies: seq<Numbered>, received: seq<Bytes>, arrival: seq<nat>) {
    |arrival| == |received| && Places(arrival, |replies|) &&
    forall i | 0 <= i < |received| :: received[i] == replies[arrival[i]].bytes
  }

  predicate AppOk(env: Env, h: Script, cl: ClientSide, s: ServerSide, log: Log) {
    Ordered(cl.requests, cl.next) && Ordered(s.replies, s.next) &&
    (cl.requests != [] ==> cl.session.Some?) && (s.handled != [] ==> s.phase.Established?) &&
    HandledOnce(env, h.serverSession, cl.requests, s.handled, log.order) && Answered(s.handled, s.replies, log.answering) &&
    Arrived(s.replies, cl.received, log.arrival) &&
    s.processed == NumbersAt(cl.requests, log.order) && cl.processed == NumbersAt(s.replies, log.arrival)
  }

  /** Both endpoints are in order. */
  predicate EndsOk(env: Env, h: Script, cl: ClientSide, s: ServerSide, log: Log) {
    ClientOk(h, cl) && ServerOk(h, s) && Linked(cl, s) && AppOk(env, h, cl, s, log)
  }

  ghost predicate Safe(env: Env, h: Script, s: System, log: Log) {
    EndsOk(env, h, s.client, s.server, log) &&
    (forall p | p in s.toServer :: FromClient(env, h, s.client, p)) &&
    (forall p | p in s.toClient :: FromServer(env, h, s.server, p))
  }

  // ---------------------------------------------------------------------------------------------
  // Datagrams stay explained as their senders move on
  // ---------------------------------------------------------------------------------------------

  predicate ClientAdvances(cl: ClientSide, cl': ClientSide) {
    (PastHello(cl) ==> PastHello(cl')) && (cl.session.Some? ==> cl'.session.Some?) && cl.requests <= cl'.requests
  }

  predicate ServerAdvances(s: ServerSide, s': ServerSide) {
    (PastKeyExchange(s) ==> PastKeyExchange(s')) && s.replies <= s'.replies
  }

  lemma SealedStays(env: Env, d: RecordLayer.Direction, messages: seq<Numbered>, more: seq<Numbered>, p: Packet)
    requires messages <= more && IsSealed(env, d, messages, p)
    ensures IsSealed(env, d, more, p)
  {
    hide AppPacket;
    var i :| 0 <= i < |messages| && AppPacket(env, Some(d), messages[i]) == Ok(p);
    assert more[i] == messages[i];
  }

  lemma FromClientStays(env: Env, h: Script, cl: ClientSide, cl': ClientSide, p: Packet)
    requires ClientAdvances(cl, cl') && FromClient(env, h, cl, p)
    ensures FromClient(env, h, cl', p)
  {
    hide IsSealed;
    if p.packetType == APP_DATA {
      SealedStays(env, h.clientKey, cl.requests, cl'.requests, p);
    }
  }

  lemma FromServerStays(env: Env, h: Script, s: ServerSide, s': ServerSide, p: Packet)
    requires ServerAdvances(s, s') && FromServer(env, h, s, p)
    ensures FromServer(env, h, s', p)
  {
    hide IsSealed;
    if p.packetType == APP_DATA {
      SealedStays(env, h.serverKey, s.replies, s'.replies, p);
    }
  }

  /** What a client step has to show. */
  ghost predicate ClientStepOk(env: Env, h: Script, cl: ClientSide, cl': ClientSide, s: ServerSide, out: seq<Packet>, log: Log, log': Log)
  {
    EndsOk(env, h, cl', s, log') && Grows(log, log') && ClientAdvances(cl, cl') && forall p | p in out :: FromClient(env, h, cl', p)
  }

  ghost predicate ServerStepOk(env: Env, h: Script, cl: ClientSide, s: ServerSide, s': ServerSide, out: seq<Packet>, log: Log, log': Log)
  {
    EndsOk(env, h, cl, s', log') && Grows(log, log') && ServerAdvances(s, s') && forall p | p in out :: FromServer(env, h, s', p)
  }

  lemma ClientStepKeepsSafe(env: Env, h: Script, sys: System, cl': ClientSide, out: seq<Packet>, log: Log, log': Log)
    requires Safe(env, h, sys, log) && ClientStepOk(env, h, sys.client, cl', sys.server, out, log, log')
    ensures Safe(env, h, sys.(client := cl', toServer := sys.toServer + SetOf(out)), log')
  {
    hide FromClient, FromServer, EndsOk, ClientAdvances;
    forall p | p in sys.toServer ensures FromClient(env, h, cl', p) {
      FromClientStays(env, h, sys.client, cl', p);
    }
  }

  lemma ServerStepKeepsSafe(env: Env, h: Script, sys: System, s': ServerSide, out: seq<Packet>, log: Log, log': Log)
    requires Safe(env, h, sys, log) && ServerStepOk(env, h, sys.client, sys.server, s', out, log, log')
    ensures Safe(env, h, sys.(server := s', toClient := sys.toClient + SetOf(out)), log')
  {
    hide FromClient, FromServer, EndsOk, ServerAdvances;
    forall p | p in sys.toClient ensures FromServer(env, h, s', p) {
      FromServerStays(env, h, sys.server, s', p);
    }
  }

  lemma AckFromClient(env: Env, h: Script, cl: ClientSide, number: nat, p: Packet)
    requires Decoded(p)
    ensures FromClient(env, h, cl, AckOf(env, number, p))
  {
  }

  lemma AckFromServer(env: Env, h: Script, s: ServerSide, number: nat, p: Packet)
    requires Decoded(p)
    ensures FromServer(env, h, s, AckOf(env, number, p))
  {
  }

  // ---------------------------------------------------------------------------------------------
  // One line of the script at a time
  // ---------------------------------------------------------------------------------------------

  lemma HelloFact(env: Env, h: Script)
    requires Usable(env) && Follows(env, h)
    ensures ReceiveClientHello(env.c, env.server, FRESH, h.ch) == (h.afterHello, Ok(h.sh))
  {
    hide SendClientHello, ReceiveClientHello, ReceiveServerHello, ReceiveClientKeyExchange, ReceiveServerFinished,
         ReceiveClientFinished, SendClientFinished, IsClientKeyExchange, ClientDirection, ServerDirection, Usable, AeadCorrect;
  }

  lemma KeyExchangeFact(env: Env, h: Script)
    requires Usable(env) && Follows(env, h)
    ensures ReceiveClientKeyExchange(env.c, env.server, h.afterHello, h.cke) == (h.afterFinished, Ok(h.sf))
    ensures IsClientKeyExchange(h.cke)
  {
    hide SendClientHello, ReceiveClientHello, ReceiveServerHello, ReceiveClientKeyExchange, ReceiveServerFinished,
         ReceiveClientFinished, SendClientFinished, IsClientKeyExchange, ClientDirection, ServerDirection, Usable, AeadCorrect;
  }

  lemma ClientFinishedFact(env: Env, h: Script)
    requires Usable(env) && Follows(env, h)
    ensures ReceiveClientFinished(env.c, env.server, h.afterFinished, h.cf) == (h.atEnd, Ok(h.serverSession))
    ensures ClientDirection(h.serverSession) == Some(h.clientKey) && ServerDirection(h.serverSession) == Some(h.serverKey)
  {
    hide SendClientHello, ReceiveClientHello, ReceiveServerHello, ReceiveClientKeyExchange, ReceiveServerFinished,
         ReceiveClientFinished, SendClientFinished, IsClientKeyExchange, ClientDirection, ServerDirection, Usable, AeadCorrect;
  }

  lemma AeadFact(env: Env, h: Script)
    requires Usable(env) && Follows(env, h)
    ensures AeadCorrect(env.c)
  {
    hide SendClientHello, ReceiveClientHello, ReceiveServerHello, ReceiveClientKeyExchange, ReceiveServerFinished,
         ReceiveClientFinished, SendClientFinished, IsClientKeyExchange, ClientDirection, ServerDirection, Usable, AeadCorrect;
  }

  lemma ConnectFact(env: Env, h: Script)
    requires Usable(env) && Follows(env, h)
    ensures SendClientHello(env.client, FRESH) == (State([h.ch], None, None, None), h.ch)
  {
    hide SendClientHello, ReceiveClientHello, ReceiveServerHello, ReceiveClientKeyExchange, ReceiveServerFinished,
         ReceiveClientFinished, SendClientFinished, IsClientKeyExchange, ClientDirection, ServerDirection, Usable, AeadCorrect;
  }

  lemma ServerHelloFact(env: Env, h: Script, now: int)
    requires Usable(env) && Follows(env, h)
    ensures var r := ReceiveServerHello(env.c, env.client, State([h.ch], None, None, None), h.sh, now);
            r.1.Raise? || r == (h.afterKeyExchange, Ok((h.cke, h.partial)))
  {
    hide SendClientHello, ReceiveClientHello, ReceiveServerHello, ReceiveClientKeyExchange, ReceiveServerFinished,
         ReceiveClientFinished, SendClientFinished, IsClientKeyExchange, ClientDirection, ServerDirection, Usable, AeadCorrect;
  }

  lemma ServerFinishedFact(env: Env, h: Script)
    requires Usable(env) && Follows(env, h)
    ensures var r := ReceiveServerFinished(env.c, h.afterKeyExchange, h.sf, h.partial);
            r.1.Raise? || r == (h.afterFinished, Ok(h.clientSession))
    ensures ReceiveServerFinished(env.c, h.afterKeyExchange, h.sh, h.partial).1.Raise?
    ensures SendClientFinished(env.c, h.afterFinished) == (h.atEnd, Ok(h.cf))
    ensures ClientDirection(h.clientSession) == Some(h.clientKey) && ServerDirection(h.clientSession) == Some(h.serverKey)
  {
    hide SendClientHello, ReceiveClientHello, ReceiveServerHello, ReceiveClientKeyExchange, ReceiveServerFinished,
         ReceiveClientFinished, SendClientFinished, IsClientKeyExchange, ClientDirection, ServerDirection, Usable, AeadCorrect;
  }

  // ---------------------------------------------------------------------------------------------
  // Server steps during the handshake
  // ---------------------------------------------------------------------------------------------

  /** A step that leaves the requests and replies alone. */
  lemma ServerAppUntouched(env: Env, h: Script, cl: ClientSide, s: ServerSide, s': ServerSide, log: Log)
    requires AppOk(env, h, cl, s, log) && s.next <= s'.next
    requires s'.replies == s.replies && s'.handled == s.handled && s'.processed == s.processed
    requires s.phase.Established? ==> s'.phase.Established?
    ensures AppOk(env, h, cl, s', log) && ServerAdvances(s, s') == (PastKeyExchange(s) ==> PastKeyExchange(s'))
  {
    hide HandledOnce, Answered, Arrived, NumbersAt;
  }

  lemma HelloStep(env: Env, h: Script, cl: ClientSide, s: ServerSide, p: Packet, log: Log)
    requires Usable(env) && Follows(env, h) && EndsOk(env, h, cl, s, log) && FromClient(env, h, cl, p) && Decoded(p)
    requires s.phase.AwaitInitial? && p.packetType == INITIAL
    ensures var r := OnClientHello(env, s, p); ServerStepOk(env, h, cl, s, r.0, r.1, log, log)
  {
    hide Usable, Follows, ReceiveClientHello, AckOf, Decoded, IsSealed, AppOk;
    HelloFact(env, h);
    var (s', out) := OnClientHello(env, s, p);
    AckFromServer(env, h, s', s.next, p);
    ServerAppUntouched(env, h, cl, s, s', log);
  }

  lemma RepeatStep(env: Env, h: Script, cl: ClientSide, s: ServerSide, p: Packet, cached: Option<Bytes>, log: Log)
    requires EndsOk(env, h, cl, s, log) && Decoded(p)
    requires cached.Some? ==> cached == Some(h.sh) || (cached == Some(h.sf) && s.phase.AwaitClientFinished?)
    ensures var r := Repeat(env, s, p, cached); ServerStepOk(env, h, cl, s, r.0, r.1, log, log)
  {
    hide AckOf, Decoded, IsSealed, AppOk;
    var (s', out) := Repeat(env, s, p, cached);
    AckFromServer(env, h, s', s.next, p);
    ServerAppUntouched(env, h, cl, s, s', log);
  }

  lemma KeyExchangeArrives(env: Env, h: Script, cl: ClientSide, s: ServerSide, p: Packet, log: Log)
    requires Usable(env) && Follows(env, h) && EndsOk(env, h, cl, s, log) && FromClient(env, h, cl, p) && Decoded(p)
    requires s.phase.AwaitKeyExchange? && p.packetType == HANDSHAKE
    ensures var r := OnKeyExchange(env, s, p); ServerStepOk(env, h, cl, s, r.0, r.1, log, log)
  {
    hide Usable, Follows, ReceiveClientKeyExchange, IsClientKeyExchange, AckOf, Decoded, IsSealed, AppOk;
    KeyExchangeFact(env, h);
    assert p.payload == h.cke && PastHello(cl);
    var (s', out) := OnKeyExchange(env, s, p);
    AckFromServer(env, h, s', s.next, p);
    ServerAppUntouched(env, h, cl, s, s', log);
  }

  lemma FinishedArrives(env: Env, h: Script, cl: ClientSide, s: ServerSide, p: Packet, log: Log)
    requires Usable(env) && Follows(env, h) && EndsOk(env, h, cl, s, log) && FromClient(env, h, cl, p) && Decoded(p)
    requires s.phase.AwaitClientFinished? && p.packetType == HANDSHAKE && !IsClientKeyExchange(p.payload)
    ensures var r := OnClientFinished(env, s, p); ServerStepOk(env, h, cl, s, r.0, r.1, log, log)
  {
    hide Usable, Follows, ReceiveClientKeyExchange, ReceiveClientFinished, IsClientKeyExchange, ClientDirection,
         ServerDirection, AckOf, Decoded, IsSealed, AppOk;
    KeyExchangeFact(env, h);
    ClientFinishedFact(env, h);
    assert p.payload == h.cf && cl.session.Some?;
    var (s', out) := OnClientFinished(env, s, p);
    AckFromServer(env, h, s', s.next, p);
    ServerAppUntouched(env, h, cl, s, s', log);
  }

  // ---------------------------------------------------------------------------------------------
  // Requests and replies
  // ---------------------------------------------------------------------------------------------

  lemma NumbersAtNext(messages: seq<Numbered>, places: seq<nat>, i: nat)
    requires Places(places, |messages|) && i < |messages| && i !in places
    ensures Places(places + [i], |messages|)
    ensures NumbersAt(messages, places + [i]) == NumbersAt(messages, places) + {messages[i].number}
  {
    var places' := places + [i];
    forall n ensures n in NumbersAt(messages, places') <==> n in NumbersAt(messages, places) + {messages[i].number} {
      if n in NumbersAt(messages, places) {
        var k :| 0 <= k < |places| && messages[places[k]].number == n;
        assert places'[k] == places[k];
      }
      assert places'[|places|] == i;
    }
  }

  lemma NumbersAtMore(messages: seq<Numbered>, m: Numbered, places: seq<nat>)
    requires Places(places, |messages|)
    ensures Places(places, |messages + [m]|) && NumbersAt(messages + [m], places) == NumbersAt(messages, places)
  {
    assert forall i | 0 <= i < |places| :: (messages + [m])[places[i]] == messages[places[i]];
  }

  lemma OrderedMore(messages: seq<Numbered>, m: Numbered, next: nat)
    requires Ordered(messages, next) && m.number == next
    ensures Ordered(messages + [m], next + 1)
  {
  }

  lemma OneMoreHandled(env: Env, session: Session, requests: seq<Numbered>, handled: seq<Handled>, order: seq<nat>, i: nat)
    requires HandledOnce(env, session, requests, handled, order) && i < |requests| && i !in order
    ensures HandledOnce(env, session, requests, handled + [HandleRequest(env, handled, session, requests[i].bytes)], order + [i])
  {
    hide HandleRequest;
    var handled' := handled + [HandleRequest(env, handled, session, requests[i].bytes)];
    forall k | 0 <= k < |handled'|
      ensures handled'[k] == HandleRequest(env, handled'[..k], session, requests[(order + [i])[k]].bytes)
    {
      assert handled'[..k] == handled[..k];
      assert handled[..|handled|] == handled;
    }
  }

  /** An application packet opens to the message it was made for, whose number it carries. */
  lemma SealedOpens(env: Env, d: RecordLayer.Direction, messages: seq<Numbered>, p: Packet) returns (i: nat)
    requires AeadCorrect(env.c) && IsSealed(env, d, messages, p)
    ensures i < |messages| && p.packetNumber == messages[i].number && OpenApp(env, d, p) == Ok(messages[i].bytes)
    ensures AppPacket(env, Some(d), messages[i]) == Ok(p)
  {
    i :| 0 <= i < |messages| && AppPacket(env, Some(d), messages[i]) == Ok(p);
    OpenOfSeal(env, d, messages[i]);
    hide OpenApp, QuicReliability.SealPacket, AeadCorrect;
  }

  lemma UnprocessedIsNew(messages: seq<Numbered>, places: seq<nat>, i: nat)
    requires Places(places, |messages|) && i < |messages| && messages[i].number !in NumbersAt(messages, places)
    ensures i !in places
  {
  }

  lemma AnsweredStays(handled: seq<Handled>, out: Handled, replies: seq<Numbered>, answering: seq<nat>)
    requires Answered(handled, replies, answering)
    ensures Answered(handled + [out], replies, answering)
    ensures out.Ran? && out.outcome.Ok? ==> forall n: nat ::
              Answered(handled + [out], replies + [Numbered(n, out.outcome.value)], answering + [|handled|])
  {
  }

  lemma ArrivedStays(replies: seq<Numbered>, m: Numbered, received: seq<Bytes>, arrival: seq<nat>)
    requires Arrived(replies, received, arrival)
    ensures Arrived(replies + [m], received, arrival)
  {
  }

  /** A request is handled, and its reply, if any, is sent. */
  lemma OneMoreReply(env: Env, h: Script, cl: ClientSide, s: ServerSide, s': ServerSide, out: Handled, i: nat, log: Log) returns (log': Log)
    requires AppOk(env, h, cl, s, log) && s'.phase.Established? && i < |cl.requests| && i !in log.order
    requires out == HandleRequest(env, s.handled, h.serverSession, cl.requests[i].bytes)
    requires s'.handled == s.handled + [out] && s'.processed == s.processed + {cl.requests[i].number}
    requires (s'.replies == s.replies && s'.next >= s.next) ||
             (s'.next > s.next && out.Ran? && out.outcome.Ok? && s'.replies == s.replies + [Numbered(s'.next - 1, out.outcome.value)])
    ensures AppOk(env, h, cl, s', log') && Grows(log, log')
  {
    hide HandleRequest, HandledOnce, Answered, Arrived, NumbersAt, Ordered, Places;
    PlacesOf(env, h, cl, s, log);
    OneMoreHandled(env, h.serverSession, cl.requests, s.handled, log.order, i);
    NumbersAtNext(cl.requests, log.order, i);
    AnsweredStays(s.handled, out, s.replies, log.answering);
    OrderedStays(s.replies, s.next, if s'.replies != s.replies then s'.next - 1 else s'.next);
    log' := log.(order := log.order + [i]);
    if s'.replies != s.replies {
      log' := log'.(answering := log.answering + [|s.handled|]);
      var last := Numbered(s'.next - 1, out.outcome.value);
      NumbersAtMore(s.replies, last, log.arrival);
      ArrivedStays(s.replies, last, cl.received, log.arrival);
      OrderedMore(s.replies, last, s'.next - 1);
    }
  }

  lemma PlacesOf(env: Env, h: Script, cl: ClientSide, s: ServerSide, log: Log)
    requires AppOk(env, h, cl, s, log)
    ensures Places(log.order, |cl.requests|) && Places(log.arrival, |s.replies|)
  {
    hide HandleRequest, NumbersAt, Ordered, Answered;
  }

  lemma OrderedStays(messages: seq<Numbered>, next: nat, next': nat)
    requires Ordered(messages, next) && next <= next'
    ensures Ordered(messages, next')
  {
  }

  /** The numbers grow and the last reply, if any, is the packet sealed for it. */
  lemma ReplySent(env: Env, h: Script, s: ServerSide, m: Numbered, q: Packet)
    requires AppPacket(env, Some(h.serverKey), m) == Ok(q) && s.replies != [] && s.replies[|s.replies| - 1] == m
    ensures FromServer(env, h, s, q)
  {
    hide QuicReliability.SealPacket;
  }

  lemma RequestArrives(env: Env, h: Script, cl: ClientSide, s: ServerSide, p: Packet, log: Log) returns (log': Log)
    requires AeadCorrect(env.c) && EndsOk(env, h, cl, s, log) && FromClient(env, h, cl, p) && Decoded(p)
    requires s.phase.Established? && p.packetType == APP_DATA
    ensures var r := OnRequest(env, s, p); ServerStepOk(env, h, cl, s, r.0, r.1, log, log')
  {
    hide AeadCorrect, AckOf, Decoded, IsSealed, AppOk, HandleRequest, OpenApp, AppPacket;
    var (s', out) := OnRequest(env, s, p);
    AckFromServer(env, h, s', s.next, p);
    var i := RequestPacketOpens(env, h, cl, s, p, log);
    log' := log;
    if p.packetNumber in s.processed {
      ServerAppUntouched(env, h, cl, s, s', log);
    } else {
      log' := OneMoreReply(env, h, cl, s, s', HandleRequest(env, s.handled, h.serverSession, cl.requests[i].bytes), i, log);
      if s'.replies != s.replies {
        ReplySent(env, h, s', s'.replies[|s.replies|], out[1]);
      }
    }
  }

  /** What a client's packet that is not yet processed holds. */
  lemma RequestPacketOpens(env: Env, h: Script, cl: ClientSide, s: ServerSide, p: Packet, log: Log) returns (i: nat)
    requires AeadCorrect(env.c) && AppOk(env, h, cl, s, log) && IsSealed(env, h.clientKey, cl.requests, p)
    ensures i < |cl.requests| && p.packetNumber == cl.requests[i].number && OpenApp(env, h.clientKey, p) == Ok(cl.requests[i].bytes)
    ensures p.packetNumber !in s.processed ==> i !in log.order
  {
    hide AeadCorrect, OpenApp, IsSealed, Ordered, NumbersAt;
    i := SealedOpens(env, h.clientKey, cl.requests, p);
    if p.packetNumber !in s.processed {
      UnprocessedIsNew(cl.requests, log.order, i);
    }
  }

  lemma ServerHandles(env: Env, h: Script, cl: ClientSide, s: ServerSide, p: Packet, log: Log) returns (log': Log)
    requires Usable(env) && Follows(env, h) && EndsOk(env, h, cl, s, log) && FromClient(env, h, cl, p) && Decoded(p)
    ensures var r := ServerHandle(env, s, p); ServerStepOk(env, h, cl, s, r.0, r.1, log, log')
  {
    hide Usable, Follows, Decoded, FromClient, OnClientHello, OnKeyExchange, OnClientFinished, OnRequest, Repeat,
         IsClientKeyExchange, AppOk, ClientOk, FromServer, AeadCorrect;
    log' := log;
    if p.packetType == ACK || p.packetType == CONNECTION_CLOSE {
    } else if s.phase.Established? {
      if p.packetType == APP_DATA {
        AeadFact(env, h);
        log' := RequestArrives(env, h, cl, s, p, log);
      }
    } else if p.packetType == INITIAL {
      if s.phase.AwaitInitial? {
        HelloStep(env, h, cl, s, p, log);
      } else {
        RepeatStep(env, h, cl, s, p, s.cachedHello, log);
      }
    } else if p.packetType == HANDSHAKE {
      if s.phase.AwaitKeyExchange? {
        KeyExchangeArrives(env, h, cl, s, p, log);
      } else if s.phase.AwaitClientFinished? {
        if IsClientKeyExchange(p.payload) {
          RepeatStep(env, h, cl, s, p, s.cachedFinished, log);
        } else {
          FinishedArrives(env, h, cl, s, p, log);
        }
      }
    }
  }

  // ---------------------------------------------------------------------------------------------
  // Client steps
  // ---------------------------------------------------------------------------------------------

  lemma ClientAppUntouched(env: Env, h: Script, cl: ClientSide, cl': ClientSide, s: ServerSide, log: Log)
    requires AppOk(env, h, cl, s, log) && cl.next <= cl'.next
    requires cl'.requests == cl.requests && cl'.received == cl.received && cl'.processed == cl.processed
    requires cl.session.Some? ==> cl'.session.Some?
    ensures AppOk(env, h, cl', s, log) && ClientAdvances(cl, cl') == (PastHello(cl) ==> PastHello(cl'))
  {
    hide HandledOnce, Answered, Arrived, NumbersAt;
  }

  lemma ConnectStep(env: Env, h: Script, cl: ClientSide, s: ServerSide, log: Log)
    requires Usable(env) && Follows(env, h) && EndsOk(env, h, cl, s, log) && cl.phase.Idle?
    ensures var r := Connect(env, cl); ClientStepOk(env, h, cl, r.0, s, r.1, log, log)
  {
    hide Usable, Follows, SendClientHello, AppOk, IsSealed;
    ConnectFact(env, h);
    var (cl', out) := Connect(env, cl);
    ClientAppUntouched(env, h, cl, cl', s, log);
  }

  lemma ServerHelloArrives(env: Env, h: Script, cl: ClientSide, s: ServerSide, p: Packet, now: int, log: Log)
    requires Usable(env) && Follows(env, h) && EndsOk(env, h, cl, s, log) && FromServer(env, h, s, p) && Decoded(p)
    requires cl.phase.AwaitServerHello? && p.packetType == HANDSHAKE
    ensures var r := OnServerHello(env, cl, p, now); ClientStepOk(env, h, cl, r.0, s, r.1, log, log)
  {
    hide Usable, Follows, ReceiveServerHello, AppOk, IsSealed, AckOf, Decoded;
    ServerHelloFact(env, h, now);
    assert p.payload == h.sh;
    var (cl', out) := OnServerHello(env, cl, p, now);
    AckFromClient(env, h, cl', cl.next, p);
    ClientAppUntouched(env, h, cl, cl', s, log);
  }

  /** The ServerFinished opens the session; a repeated ServerHello in its place makes the client fail. */
  lemma ServerFinishedArrives(env: Env, h: Script, cl: ClientSide, s: ServerSide, p: Packet, log: Log)
    requires Usable(env) && Follows(env, h) && EndsOk(env, h, cl, s, log) && FromServer(env, h, s, p) && Decoded(p)
    requires cl.phase.AwaitServerFinished? && p.packetType == HANDSHAKE
    ensures var r := OnServerFinished(env, cl, p, cl.phase.partial); ClientStepOk(env, h, cl, r.0, s, r.1, log, log)
  {
    hide Usable, Follows, ReceiveServerFinished, SendClientFinished, AppOk, IsSealed, AckOf, Decoded, ClientDirection, ServerDirection;
    ServerFinishedFact(env, h);
    var (cl', out) := OnServerFinished(env, cl, p, cl.phase.partial);
    AckFromClient(env, h, cl', cl.next, p);
    ClientAppUntouched(env, h, cl, cl', s, log);
  }

  lemma GivingUp(env: Env, h: Script, cl: ClientSide, s: ServerSide, log: Log)
    requires EndsOk(env, h, cl, s, log)
    ensures ClientStepOk(env, h, cl, cl.(phase := Failed), s, [], log, log)
  {
    hide AppOk;
    ClientAppUntouched(env, h, cl, cl.(phase := Failed), s, log);
  }

  lemma ReplyArrives(env: Env, h: Script, cl: ClientSide, s: ServerSide, p: Packet, log: Log) returns (log': Log)
    requires AeadCorrect(env.c) && EndsOk(env, h, cl, s, log) && FromServer(env, h, s, p) && Decoded(p)
    requires cl.phase.Open? && p.packetType == APP_DATA && cl.receiver.Some?
    ensures var r := OnReply(env, cl, p); ClientStepOk(env, h, cl, r.0, s, r.1, log, log')
  {
    hide AeadCorrect, AckOf, Decoded, IsSealed, AppOk, OpenApp, AppPacket;
    var (cl', out) := OnReply(env, cl, p);
    AckFromClient(env, h, cl', cl.next, p);
    var i := ReplyPacketOpens(env, h, cl, s, p, log);
    log' := log;
    if p.packetNumber in cl.processed {
      ClientAppUntouched(env, h, cl, cl', s, log);
    } else {
      log' := OneMoreReceived(env, h, cl, cl', s, i, log);
    }
  }

  /** What a server's packet that is not yet processed holds. */
  lemma ReplyPacketOpens(env: Env, h: Script, cl: ClientSide, s: ServerSide, p: Packet, log: Log) returns (i: nat)
    requires AeadCorrect(env.c) && AppOk(env, h, cl, s, log) && IsSealed(env, h.serverKey, s.replies, p)
    ensures i < |s.replies| && p.packetNumber == s.replies[i].number && OpenApp(env, h.serverKey, p) == Ok(s.replies[i].bytes)
    ensures p.packetNumber !in cl.processed ==> i !in log.arrival
  {
    hide AeadCorrect, OpenApp, IsSealed, Ordered, NumbersAt;
    i := SealedOpens(env, h.serverKey, s.replies, p);
    if p.packetNumber !in cl.processed {
      UnprocessedIsNew(s.replies, log.arrival, i);
    }
  }

  lemma OneMoreReceived(env: Env, h: Script, cl: ClientSide, cl': ClientSide, s: ServerSide, i: nat, log: Log) returns (log': Log)
    requires AppOk(env, h, cl, s, log) && i < |s.replies| && i !in log.arrival
    requires cl' == cl.(next := cl.next + 1, processed := cl.processed + {s.replies[i].number}, received := cl.received + [s.replies[i].bytes])
    ensures AppOk(env, h, cl', s, log') && Grows(log, log')
  {
    NumbersAtNext(s.replies, log.arrival, i);
    hide HandledOnce, NumbersAt;
    log' := log.(arrival := log.arrival + [i]);
  }

  lemma RequestSent(env: Env, h: Script, cl: ClientSide, s: ServerSide, request: Bytes, log: Log)
    requires EndsOk(env, h, cl, s, log) && cl.phase.Open?
    ensures var r := SendRequest(env, cl, request); ClientStepOk(env, h, cl, r.0, s, r.1, log, log)
  {
    hide AppOk, AppPacket, IsSealed;
    var (cl', out) := SendRequest(env, cl, request);
    if cl'.requests == cl.requests {
      ClientAppUntouched(env, h, cl, cl', s, log);
    } else {
      OneMoreRequest(env, h, cl, cl', s, Numbered(cl.next, request), log);
      LastRequestSealed(env, h, cl', out[0]);
    }
  }

  lemma LastRequestSealed(env: Env, h: Script, cl: ClientSide, p: Packet)
    requires cl.requests != [] && AppPacket(env, Some(h.clientKey), cl.requests[|cl.requests| - 1]) == Ok(p)
    ensures FromClient(env, h, cl, p)
  {
    hide QuicReliability.SealPacket;
  }

  lemma OneMoreRequest(env: Env, h: Script, cl: ClientSide, cl': ClientSide, s: ServerSide, m: Numbered, log: Log)
    requires AppOk(env, h, cl, s, log) && cl.session.Some? && m.number == cl.next
    requires cl' == cl.(next := cl.next + 1, requests := cl.requests + [m])
    ensures AppOk(env, h, cl', s, log)
  {
    NumbersAtMore(cl.requests, m, log.order);
    OrderedMore(cl.requests, m, cl.next);
    HandledStays(env, h.serverSession, cl.requests, m, s.handled, log.order);
    hide HandledOnce, NumbersAt, Ordered;
  }

  lemma HandledStays(env: Env, session: Session, requests: seq<Numbered>, m: Numbered, handled: seq<Handled>, order: seq<nat>)
    requires HandledOnce(env, session, requests, handled, order)
    ensures HandledOnce(env, session, requests + [m], handled, order)
  {
    hide HandleRequest;
  }

  lemma ClientHandles(env: Env, h: Script, cl: ClientSide, s: ServerSide, p: Packet, now: int, log: Log) returns (log': Log)
    requires Usable(env) && Follows(env, h) && EndsOk(env, h, cl, s, log) && FromServer(env, h, s, p) && Decoded(p)
    ensures var r := ClientHandle(env, cl, p, now); ClientStepOk(env, h, cl, r.0, s, r.1, log, log')
  {
    hide Usable, Follows, Decoded, FromServer, OnServerHello, OnServerFinished, OnReply, AppOk, ClientStateOk, ServerOk,
         FromClient, AeadCorrect, Linked;
    log' := log;
    if p.connectionId == env.connectionId {
      if cl.phase.AwaitServerHello? && p.packetType == HANDSHAKE {
        ServerHelloArrives(env, h, cl, s, p, now, log);
      } else if cl.phase.AwaitServerFinished? && p.packetType == HANDSHAKE {
        ServerFinishedArrives(env, h, cl, s, p, log);
      } else if cl.phase.Open? && p.packetType == APP_DATA && cl.receiver.Some? {
        AeadFact(env, h);
        log' := ReplyArrives(env, h, cl, s, p, log);
      }
    }
  }

  // ---------------------------------------------------------------------------------------------
  // Whole runs
  // ---------------------------------------------------------------------------------------------

  const NOTHING := Log([], [], [])

  lemma StartIsSafe(env: Env, h: Script)
    ensures Safe(env, h, START, NOTHING)
  {
  }

  lemma StepKeepsSafe(env: Env, h: Script, sys: System, e: Event, log: Log) returns (log': Log)
    requires Usable(env) && Follows(env, h) && Safe(env, h, sys, log) && Enabled(sys, e)
    ensures Safe(env, h, Next(env, sys, e), log') && Grows(log, log')
  {
    hide Usable, Follows, Decoded, FromServer, FromClient, EndsOk, Connect, ServerHandle, ClientHandle, SendRequest, SetOf,
         ServerOk;
    log' := log;
    match e
    case Connects =>
      ConnectStep(env, h, sys.client, sys.server, log);
      var (cl', out) := Connect(env, sys.client);
      ClientStepKeepsSafe(env, h, sys, cl', out, log, log);
    case ServerReceives(p) =>
      log' := ServerHandles(env, h, sys.client, sys.server, p, log);
      var (s', out) := ServerHandle(env, sys.server, p);
      ServerStepKeepsSafe(env, h, sys, s', out, log, log');
    case ClientReceives(p, now) =>
      log' := ClientHandles(env, h, sys.client, sys.server, p, now, log);
      var (cl', out) := ClientHandle(env, sys.client, p, now);
      ClientStepKeepsSafe(env, h, sys, cl', out, log, log');
    case Requests(request) =>
      RequestSent(env, h, sys.client, sys.server, request, log);
      var (cl', out) := SendRequest(env, sys.client, request);
      ClientStepKeepsSafe(env, h, sys, cl', out, log, log);
    case GivesUp =>
      GivingUp(env, h, sys.client, sys.server, log);
      ClientStepKeepsSafe(env, h, sys, sys.client.(phase := Failed), [], log, log);
      NothingSent(sys.toServer);
  }

  lemma NothingSent(packets: set<Packet>)
    ensures packets + SetOf([]) == packets
  {
  }

  lemma {:induction false} RunIsSafe(env: Env, trace: seq<System>, events: seq<Event>, i: nat) returns (log: Log)
    requires Sound(env) && Usable(env) && Shared(env) && IsRun(env, trace, events) && i < |trace|
    ensures Safe(env, ScriptOf(env), trace[i], log)
  {
    hide Sound, Shared, Usable, Follows, Safe, Enabled, Next, ScriptOf;
    SoundFollows(env);
    if i == 0 {
      StartIsSafe(env, ScriptOf(env));
      log := NOTHING;
    } else {
      log := RunIsSafe(env, trace, events, i - 1);
      log := StepKeepsSafe(env, ScriptOf(env), trace[i - 1], events[i - 1], log);
      assert trace[i - 1 + 1] == Next(env, trace[i - 1], events[i - 1]);
    }
  }
}
