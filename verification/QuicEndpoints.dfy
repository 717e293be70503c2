/**
  The packet handlers of the two datagram endpoints, as functions from a state and a packet to the
  next state and the packets sent. A datagram is written as the packet it decodes to: the codec is
  an exact inverse pair. Retransmission sends packets that were sent before and changes nothing here.
*/
module QuicEndpoints {
  import opened Wrappers
  import opened ByteStrings
  import opened CanonicalJson
  import opened Messages
  import opened Primitives
  import opened Handshake
  import opened Application
  import opened QuicPackets
  import opened QuicReliability
  import RecordLayer

  /** One client, one server and the application that the server serves. */
  datatype Env = Env(
    c: Suite,
    client: Client,
    server: Server,
    connectionId: Bytes,
    parses: Bytes -> bool,
    app: App)

  datatype Numbered = Numbered(number: nat, bytes: Bytes)

  ghost predicate Usable(env: Env) {
    HashesHaveFixedSize(env.c) && IsMessage(env.server.cert)
  }

  /** What the codec can produce. */
  predicate Decoded(p: Packet) {
    ValidHeader(p.packetType, p.connectionId, p.packetNumber, p.epoch, |p.payload|, p.version)
  }

  function AckOf(env: Env, number: nat, p: Packet): Packet
    requires Decoded(p)
  {
    Packet(ACK, env.connectionId, number, AckPayload(p.packetNumber), p.epoch, PACKET_VERSION)
  }

  function HandshakePacket(env: Env, number: nat, payload: Bytes): Packet {
    Packet(HANDSHAKE, env.connectionId, number, payload, 0, PACKET_VERSION)
  }

  function AppPacket(env: Env, d: Option<RecordLayer.Direction>, m: Numbered): Result<Packet> {
    var ciphertext :- SealPacket(env.c, d, env.connectionId, m.number, m.bytes, 1);
    Ok(Packet(APP_DATA, env.connectionId, m.number, ciphertext, 1, PACKET_VERSION))
  }

  function OpenApp(env: Env, d: RecordLayer.Direction, p: Packet): Result<Bytes> {
    var aad :- EncodeHeader(APP_DATA, env.connectionId, p.packetNumber, p.epoch, 0, PACKET_VERSION);
    RecordLayer.Unprotect(env.c, d, p.packetNumber, p.payload, aad)
  }

  lemma OpenOfSeal(env: Env, d: RecordLayer.Direction, m: Numbered)
    requires AeadCorrect(env.c) && AppPacket(env, Some(d), m).Ok?
    ensures OpenApp(env, d, AppPacket(env, Some(d), m).value) == Ok(m.bytes)
  {
  }

  // ---------------------------------------------------------------------------------------------
  // Server
  // ---------------------------------------------------------------------------------------------

  datatype ServerPhase = AwaitInitial | AwaitKeyExchange | AwaitClientFinished | Established

  datatype ServerSide = ServerSide(
    phase: ServerPhase,
    st: State,
    next: nat,
    cachedHello: Option<Bytes>,
    cachedFinished: Option<Bytes>,
    session: Option<Session>,
    sender: Option<RecordLayer.Direction>,
    receiver: Option<RecordLayer.Direction>,
    processed: set<int>,
    handled: seq<Handled>,
    replies: seq<Numbered>)

  const NEW_SERVER := ServerSide(AwaitInitial, FRESH, 0, None, None, None, None, None, {}, [], [])

  /** The keys for each direction; a session that completed has keys. */
  function ClientDirection(session: Session): Option<RecordLayer.Direction> {
    if session.keys.None? then None
    else Some(RecordLayer.Direction(session.keys.value.clientWriteKey, session.keys.value.clientWriteIv))
  }

  function ServerDirection(session: Session): Option<RecordLayer.Direction> {
    if session.keys.None? then None
    else Some(RecordLayer.Direction(session.keys.value.serverWriteKey, session.keys.value.serverWriteIv))
  }

  predicate IsClientKeyExchange(payload: Bytes) {
    var message := Deserialize(payload);
    message.Ok? && message.value.Obj? && message.value.Get("type") == Some(Str("ClientKeyExchange"))
  }

  function OnClientHello(env: Env, s: ServerSide, p: Packet): (ServerSide, seq<Packet>)
    requires Usable(env) && Decoded(p)
  {
    var ack := AckOf(env, s.next, p);
    var (st, answer) := ReceiveClientHello(env.c, env.server, s.st, p.payload);
    match answer
    case Raise(_) => (s.(next := s.next + 1, st := st), [ack])
    case Ok(sh) =>
      (s.(next := s.next + 2, st := st, cachedHello := Some(sh), phase := AwaitKeyExchange),
       [ack, HandshakePacket(env, s.next + 1, sh)])
  }

  function OnKeyExchange(env: Env, s: ServerSide, p: Packet): (ServerSide, seq<Packet>)
    requires Usable(env) && Decoded(p)
  {
    var ack := AckOf(env, s.next, p);
    var (st, answer) := ReceiveClientKeyExchange(env.c, env.server, s.st, p.payload);
    match answer
    case Raise(_) => (s.(next := s.next + 1, st := st), [ack])
    case Ok(sf) =>
      (s.(next := s.next + 2, st := st, cachedFinished := Some(sf), phase := AwaitClientFinished),
       [ack, HandshakePacket(env, s.next + 1, sf)])
  }

  /** A message seen again is acknowledged again, and the cached answer sent as a new packet. */
  function Repeat(env: Env, s: ServerSide, p: Packet, cached: Option<Bytes>): (ServerSide, seq<Packet>)
    requires Decoded(p)
  {
    if cached.None? then (s, [])
    else (s.(next := s.next + 2), [AckOf(env, s.next, p), HandshakePacket(env, s.next + 1, cached.value)])
  }

  function OnClientFinished(env: Env, s: ServerSide, p: Packet): (ServerSide, seq<Packet>)
    requires Usable(env) && Decoded(p)
  {
    var ack := AckOf(env, s.next, p);
    var (st, answer) := ReceiveClientFinished(env.c, env.server, s.st, p.payload);
    match answer
    case Raise(_) => (s.(next := s.next + 1, st := st), [ack])
    case Ok(session) =>
      (s.(next := s.next + 1, st := st, session := Some(session), sender := ServerDirection(session),
          receiver := ClientDirection(session), phase := Established),
       [ack])
  }

  /** What becomes of a request when these were handled before it. */
  function HandleRequest(env: Env, before: seq<Handled>, session: Session, request: Bytes): Handled {
    Application.Handle(env.parses, env.app, before, session, request)
  }

  /** The number is recorded once the packet opens, before the application runs. */
  function OnRequest(env: Env, s: ServerSide, p: Packet): (ServerSide, seq<Packet>)
    requires Decoded(p) && s.receiver.Some? && s.session.Some?
  {
    var ack := AckOf(env, s.next, p);
    var s1 := s.(next := s.next + 1);
    if p.packetNumber in s.processed then (s1, [ack])
    else
      match OpenApp(env, s.receiver.value, p)
      case Raise(_) => (s1, [ack])
      case Ok(request) =>
        var h := HandleRequest(env, s.handled, s.session.value, request);
        var s2 := s1.(processed := s.processed + {p.packetNumber}, handled := s.handled + [h]);
        if h.Rejected? || h.outcome.Raise? then (s2, [ack])
        else
          var reply := Numbered(s2.next, h.outcome.value);
          match AppPacket(env, s.sender, reply)
          case Raise(_) => (s2.(next := s2.next + 1), [ack])
          case Ok(q) => (s2.(next := s2.next + 1, replies := s.replies + [reply]), [ack, q])
  }

  /** One packet for this connection, up to CONNECTION_CLOSE. */
  function ServerHandle(env: Env, s: ServerSide, p: Packet): (ServerSide, seq<Packet>)
    requires Usable(env) && Decoded(p)
  {
    if p.packetType == ACK || p.packetType == CONNECTION_CLOSE then (s, [])
    else
      match s.phase
      case AwaitInitial =>
        if p.packetType == INITIAL then OnClientHello(env, s, p) else (s, [])
      case AwaitKeyExchange =>
        if p.packetType == HANDSHAKE then OnKeyExchange(env, s, p)
        else if p.packetType == INITIAL then Repeat(env, s, p, s.cachedHello)
        else (s, [])
      case AwaitClientFinished =>
        if p.packetType == INITIAL then Repeat(env, s, p, s.cachedHello)
        else if p.packetType != HANDSHAKE then (s, [])
        else if IsClientKeyExchange(p.payload) && s.cachedFinished.Some? then Repeat(env, s, p, s.cachedFinished)
        else OnClientFinished(env, s, p)
      case Established =>
        if p.packetType == APP_DATA && s.receiver.Some? && s.session.Some? then OnRequest(env, s, p) else (s, [])
  }

  // ---------------------------------------------------------------------------------------------
  // Client
  // ---------------------------------------------------------------------------------------------

  /** Where `connect` has got to; Failed is any exception that reached its caller. */
  datatype ClientPhase = Idle | AwaitServerHello | AwaitServerFinished(partial: Session) | Open | Failed

  datatype ClientSide = ClientSide(
    phase: ClientPhase,
    st: State,
    next: nat,
    session: Option<Session>,
    sender: Option<RecordLayer.Direction>,
    receiver: Option<RecordLayer.Direction>,
    processed: set<int>,
    requests: seq<Numbered>,
    received: seq<Bytes>)

  const NEW_CLIENT := ClientSide(Idle, FRESH, 0, None, None, None, {}, [], [])

  function Connect(env: Env, cl: ClientSide): (ClientSide, seq<Packet>) {
    var (st, ch) := SendClientHello(env.client, cl.st);
    (cl.(phase := AwaitServerHello, st := st, next := cl.next + 1),
     [Packet(INITIAL, env.connectionId, cl.next, ch, 0, PACKET_VERSION)])
  }

  /** The packet is acknowledged before its message is looked at. */
  function OnServerHello(env: Env, cl: ClientSide, p: Packet, now: int): (ClientSide, seq<Packet>)
    requires Usable(env) && Decoded(p)
  {
    var ack := AckOf(env, cl.next, p);
    var (st, answer) := ReceiveServerHello(env.c, env.client, cl.st, p.payload, now);
    match answer
    case Raise(_) => (cl.(phase := Failed, st := st, next := cl.next + 1), [ack])
    case Ok((cke, partial)) =>
      (cl.(phase := AwaitServerFinished(partial), st := st, next := cl.next + 2),
       [ack, HandshakePacket(env, cl.next + 1, cke)])
  }

  function OnServerFinished(env: Env, cl: ClientSide, p: Packet, partial: Session): (ClientSide, seq<Packet>)
    requires Usable(env) && Decoded(p)
  {
    var ack := AckOf(env, cl.next, p);
    var (st, answer) := ReceiveServerFinished(env.c, cl.st, p.payload, partial);
    match answer
    case Raise(_) => (cl.(phase := Failed, st := st, next := cl.next + 1), [ack])
    case Ok(session) =>
      var (st', finished) := SendClientFinished(env.c, st);
      match finished
      case Raise(_) => (cl.(phase := Failed, st := st', next := cl.next + 1), [ack])
      case Ok(cf) =>
        (cl.(phase := Open, st := st', next := cl.next + 2, session := Some(session),
             sender := ClientDirection(session), receiver := ServerDirection(session)),
         [ack, HandshakePacket(env, cl.next + 1, cf)])
  }

  /** A packet of the last loop of `recv_application`; one that does not open raises, and the session stays. */
  function OnReply(env: Env, cl: ClientSide, p: Packet): (ClientSide, seq<Packet>)
    requires Decoded(p) && cl.receiver.Some?
  {
    var ack := AckOf(env, cl.next, p);
    var cl1 := cl.(next := cl.next + 1);
    if p.packetNumber in cl.processed then (cl1, [ack])
    else
      match OpenApp(env, cl.receiver.value, p)
      case Raise(_) => (cl1, [ack])
      case Ok(reply) => (cl1.(processed := cl.processed + {p.packetNumber}, received := cl.received + [reply]), [ack])
  }

  /** One packet, up to CONNECTION_CLOSE; a packet of another type than the one expected is skipped. */
  function ClientHandle(env: Env, cl: ClientSide, p: Packet, now: int): (ClientSide, seq<Packet>)
    requires Usable(env) && Decoded(p)
  {
    if p.connectionId != env.connectionId then (cl, [])
    else
      match cl.phase
      case Idle => (cl, [])
      case AwaitServerHello => if p.packetType == HANDSHAKE then OnServerHello(env, cl, p, now) else (cl, [])
      case AwaitServerFinished(partial) =>
        if p.packetType == HANDSHAKE then OnServerFinished(env, cl, p, partial) else (cl, [])
      case Open =>
        if p.packetType == APP_DATA && cl.receiver.Some? then OnReply(env, cl, p) else (cl, [])
      case Failed => (cl, [])
  }

  /** `send_application`, which raises without a session and when the packet cannot be sealed. */
  function SendRequest(env: Env, cl: ClientSide, request: Bytes): (ClientSide, seq<Packet>) {
    var m := Numbered(cl.next, request);
    if cl.sender.None? then (cl, [])
    else
      match AppPacket(env, cl.sender, m)
      case Raise(_) => (cl.(next := cl.next + 1), [])
      case Ok(p) => (cl.(next := cl.next + 1, requests := cl.requests + [m]), [p])
  }
}
