/**
  The client transport with its retry and receive loops. Whatever arrives and whenever timers fire,
  the object only does what the client of the run model does.
*/
module QuicClientObject {
  import opened Wrappers
  import opened ByteStrings
  import opened Handshake
  import opened QuicPackets
  import opened QuicEndpoints
  import opened QuicRun
  import HandshakeObjects
  import RecordLayer
  import QuicReliability

  /** A wait that ends with a timeout or with a datagram; `now` is the clock when it is handled. */
  datatype Arrival = Timeout | Datagram(packet: Packet, now: int)

  /** How a wait for a packet ends. */
  datatype Outcome = Got(packet: Packet, now: int) | TimedOut | Closed | Refused

  /** What an application packet turns out to be. */
  datatype Taken = Duplicate | Reply(plain: Bytes) | Unopened

  /** A stored packet and how often it was sent again. */
  datatype Pending = Pending(packet: Packet, attempts: nat)

  // ---------------------------------------------------------------------------------------------
  // Runs of the model's client
  // ---------------------------------------------------------------------------------------------

  /** The client's part of one event of the run model. */
  function ClientNext(env: Env, cl: ClientSide, e: Event): (ClientSide, seq<Packet>)
    requires Usable(env)
  {
    match e
    case Connects => if cl.phase.Idle? then Connect(env, cl) else (cl, [])
    case ServerReceives(_) => (cl, [])
    case ClientReceives(p, now) => if Decoded(p) then ClientHandle(env, cl, p, now) else (cl, [])
    case Requests(request) =>
      if cl.phase.Open? then SendRequest(env, cl, request) else (cl, [])
    case GivesUp => (cl.(phase := Failed), [])
  }

  /** It is the client's part. */
  lemma ClientNextIsNext(env: Env, s: System, e: Event)
    requires Usable(env) && Enabled(s, e)
    ensures var (client, out) := ClientNext(env, s.client, e);
            var next := Next(env, s, e);
            next.client == client && next.toServer == s.toServer + SetOf(out)
  {
    hide Usable, Decoded, ClientHandle, ServerHandle, SendRequest, Connect;
  }

  /** The client after a list of events, and every packet it has sent. */
  function Feed(env: Env, events: seq<Event>): (ClientSide, set<Packet>)
    requires Usable(env)
  {
    if events == [] then (NEW_CLIENT, {})
    else
      var (cl, sent) := Feed(env, events[..|events| - 1]);
      var (next, out) := ClientNext(env, cl, events[|events| - 1]);
      (next, sent + SetOf(out))
  }

  lemma FeedSnoc(env: Env, events: seq<Event>, e: Event)
    requires Usable(env)
    ensures var (cl, sent) := Feed(env, events);
            var (next, out) := ClientNext(env, cl, e);
            Feed(env, events + [e]) == (next, sent + SetOf(out))
  {
    hide ClientNext, SetOf, Usable;
    assert (events + [e])[..|events|] == events;
  }

  lemma SetsOf(p: Packet, q: Packet)
    ensures SetOf([p]) == {p} && SetOf([p, q]) == {p, q}
  {
  }

  lemma FeedConnect(env: Env, events: seq<Event>)
    requires Usable(env) && Feed(env, events).0.phase.Idle?
    ensures var (cl, sent) := Feed(env, events);
            var (st, ch) := SendClientHello(env.client, cl.st);
            var packet := Packet(INITIAL, env.connectionId, cl.next, ch, 0, PACKET_VERSION);
            Feed(env, events + [Connects]) == (cl.(phase := AwaitServerHello, st := st, next := cl.next + 1), sent + {packet})
  {
    hide Feed, Usable, SendClientHello, SetOf, ClientHandle, SendRequest;
    FeedSnoc(env, events, Connects);
    var (cl, sent) := Feed(env, events);
    var packet := Connect(env, cl).1[0];
    SetsOf(packet, packet);
  }

  /** A packet of the wanted type, in the phase that wants it. */
  lemma FeedServerHello(env: Env, events: seq<Event>, p: Packet, now: int)
    requires Usable(env) && Decoded(p) && Feed(env, events).0.phase.AwaitServerHello?
    requires p.packetType == HANDSHAKE && p.connectionId == env.connectionId
    ensures var (cl, sent) := Feed(env, events);
            var (next, out) := OnServerHello(env, cl, p, now);
            Feed(env, events + [ClientReceives(p, now)]) == (next, sent + SetOf(out))
  {
    hide Feed, Usable, Decoded, OnServerHello, SetOf, Connect, SendRequest;
    FeedSnoc(env, events, ClientReceives(p, now));
  }

  lemma FeedServerFinished(env: Env, events: seq<Event>, p: Packet, now: int)
    requires Usable(env) && Decoded(p) && Feed(env, events).0.phase.AwaitServerFinished?
    requires p.packetType == HANDSHAKE && p.connectionId == env.connectionId
    ensures var (cl, sent) := Feed(env, events);
            var (next, out) := OnServerFinished(env, cl, p, cl.phase.partial);
            Feed(env, events + [ClientReceives(p, now)]) == (next, sent + SetOf(out))
  {
    hide Feed, Usable, Decoded, OnServerFinished, SetOf, Connect, SendRequest;
    FeedSnoc(env, events, ClientReceives(p, now));
  }

  lemma FeedReply(env: Env, events: seq<Event>, p: Packet, now: int)
    requires Usable(env) && Decoded(p) && Feed(env, events).0.phase.Open? && Feed(env, events).0.receiver.Some?
    requires p.packetType == APP_DATA && p.connectionId == env.connectionId
    ensures var (cl, sent) := Feed(env, events);
            var (next, out) := OnReply(env, cl, p);
            Feed(env, events + [ClientReceives(p, now)]) == (next, sent + SetOf(out))
  {
    hide Feed, Usable, Decoded, OnReply, SetOf, Connect, SendRequest;
    FeedSnoc(env, events, ClientReceives(p, now));
  }

  lemma FeedRequest(env: Env, events: seq<Event>, request: Bytes)
    requires Usable(env) && Feed(env, events).0.phase.Open?
    ensures var (cl, sent) := Feed(env, events);
            var (next, out) := SendRequest(env, cl, request);
            Feed(env, events + [Requests(request)]) == (next, sent + SetOf(out))
  {
    hide Feed, Usable, ClientHandle, SetOf, Connect, SendRequest;
    FeedSnoc(env, events, Requests(request));
  }

  lemma SentRequest(env: Env, cl: ClientSide, request: Bytes)
    requires cl.sender.Some?
    ensures var m := Numbered(cl.next, request);
            var packet := AppPacket(env, cl.sender, m);
            var (next, out) := SendRequest(env, cl, request);
            if packet.Raise? then next == cl.(next := cl.next + 1) && SetOf(out) == {}
            else next == cl.(next := cl.next + 1, requests := cl.requests + [m]) && SetOf(out) == {packet.value}
  {
    hide AppPacket;
  }

  lemma FeedGivesUp(env: Env, events: seq<Event>)
    requires Usable(env)
    ensures var (cl, sent) := Feed(env, events);
            Feed(env, events + [GivesUp]) == (cl.(phase := Failed), sent)
  {
    hide Feed, Usable, ClientHandle, Connect, SendRequest, SetOf;
    FeedSnoc(env, events, GivesUp);
    var (cl, sent) := Feed(env, events);
    NothingSent();
    assert sent + {} == sent;
  }

  lemma NothingSent()
    ensures SetOf([]) == {}
  {
  }

  lemma OpensOrFails(env: Env, cl: ClientSide, p: Packet, partial: Session)
    requires Usable(env) && Decoded(p)
    ensures var next := OnServerFinished(env, cl, p, partial).0;
            (next.phase.Open? || next.phase.Failed?) && (cl.session.None? ==> (next.session.Some? <==> next.phase.Open?))
  {
    hide Usable, Decoded, AckOf, ReceiveServerFinished, SendClientFinished, ClientDirection, ServerDirection;
  }

  lemma SealedNumber(env: Env, d: Option<RecordLayer.Direction>, m: Numbered)
    requires AppPacket(env, d, m).Ok?
    ensures AppPacket(env, d, m).value.packetNumber == m.number
  {
    hide QuicReliability.SealPacket;
  }

  /** How often a packet with this number was sent. */
  function Sends(outbox: seq<Packet>, n: nat): nat {
    if outbox == [] then 0
    else Sends(outbox[..|outbox| - 1], n) + (if outbox[|outbox| - 1].packetNumber == n then 1 else 0)
  }

  lemma SendsSnoc(outbox: seq<Packet>, p: Packet)
    ensures forall n: nat :: Sends(outbox + [p], n) == Sends(outbox, n) + (if p.packetNumber == n then 1 else 0)
  {
    assert (outbox + [p])[..|outbox|] == outbox;
  }

  class QUICClientTransport {
    const env: Env
    const handshake: HandshakeObjects.ClientHandshake
    var sendPacketNumber: nat
    var session: Option<Session>
    var sender: Option<RecordLayer.Direction>
    var receiver: Option<RecordLayer.Direction>
    var pendingPackets: map<nat, Pending>
    var processedAppPackets: set<int>
    /** What the socket was given, and what it will give. */
    var outbox: seq<Packet>
    var inbox: seq<Arrival>
    ghost var phase: ClientPhase
    ghost var requests: seq<Numbered>
    ghost var received: seq<Bytes>
    /** What the model's client has been through. */
    ghost var events: seq<Event>

    ghost function View(): ClientSide
      reads this, handshake
    {
      ClientSide(phase, handshake.Fields(), sendPacketNumber, session, sender, receiver, processedAppPackets, requests, received)
    }

    /** How often a packet with this number may have been sent. */
    ghost function Budget(n: nat): nat
      reads `pendingPackets, `sendPacketNumber
    {
      if n >= sendPacketNumber then 0
      else if n in pendingPackets then 1 + pendingPackets[n].attempts
      else 1 + QuicReliability.MAX_RETRIES
    }

    ghost predicate Bounded()
      reads `outbox, `pendingPackets, `sendPacketNumber
    {
      (forall n: nat :: Sends(outbox, n) <= Budget(n)) &&
      forall n | n in pendingPackets ::
        pendingPackets[n].packet.packetNumber == n < sendPacketNumber && pendingPackets[n].attempts <= QuicReliability.MAX_RETRIES
    }

    ghost predicate Linked()
      reads `inbox, `outbox, `pendingPackets, `sendPacketNumber
    {
      Bounded() && Usable(env) && handshake.c == env.c && handshake.client == env.client &&
      forall a | a in inbox && a.Datagram? :: Decoded(a.packet)
    }

    /** Every packet on the wire or stored is one of these. */
    ghost predicate SentOnly(sent: set<Packet>)
      reads `outbox, `pendingPackets
    {
      (forall p | p in outbox :: p in sent) && forall n | n in pendingPackets :: pendingPackets[n].packet in sent
    }

    /** The object has done what the model's client does on `events`; only resends are extra. */
    ghost predicate Valid()
      reads this, handshake
    {
      Linked() && View() == Feed(env, events).0 && SentOnly(Feed(env, events).1) && (session.Some? <==> phase.Open?)
    }

    /** No number is sent more often than once and the retries. */
    lemma SendsWithinBudget(n: nat)
      requires Linked()
      ensures Sends(outbox, n) <= 5
    {
    }

    constructor (env: Env, inbox: seq<Arrival>)
      requires Usable(env) && forall a | a in inbox && a.Datagram? :: Decoded(a.packet)
      ensures Valid() && this.env == env && View() == NEW_CLIENT && this.inbox == inbox && fresh(handshake)
    {
      this.env := env;
      this.inbox := inbox;
      handshake := new HandshakeObjects.ClientHandshake(env.c, env.client);
      sendPacketNumber := 0;
      session := None;
      sender := None;
      receiver := None;
      pendingPackets := map[];
      processedAppPackets := {};
      outbox := [];
      phase := Idle;
      requests := [];
      received := [];
      events := [];
    }

    // -------------------------------------------------------------------------------------------
    // Sending
    // -------------------------------------------------------------------------------------------

    method Put(packet: Packet, reliable: bool)
      requires Linked() && packet.packetNumber == sendPacketNumber
      modifies `sendPacketNumber, `outbox, `pendingPackets
      ensures Linked() && sendPacketNumber == old(sendPacketNumber) + 1 && outbox == old(outbox) + [packet]
      ensures pendingPackets == if reliable then old(pendingPackets)[old(sendPacketNumber) := Pending(packet, 0)] else old(pendingPackets)
      ensures forall sent | old(SentOnly(sent)) :: SentOnly(sent + {packet})
    {
      hide Usable;
      SendsSnoc(outbox, packet);
      var n := sendPacketNumber;
      sendPacketNumber := sendPacketNumber + 1;
      outbox := outbox + [packet];
      if reliable {
        pendingPackets := pendingPackets[n := Pending(packet, 0)];
      }
    }

    method SendAck(p: Packet) returns (ghost ack: Packet)
      requires Linked() && Decoded(p)
      modifies `sendPacketNumber, `outbox, `pendingPackets
      ensures Linked() && ack == AckOf(env, old(sendPacketNumber), p) && sendPacketNumber == old(sendPacketNumber) + 1
      ensures forall sent | old(SentOnly(sent)) :: SentOnly(sent + {ack})
    {
      ack := AckOf(env, sendPacketNumber, p);
      Put(AckOf(env, sendPacketNumber, p), false);
    }

    // -------------------------------------------------------------------------------------------
    // Receiving
    // -------------------------------------------------------------------------------------------

    /** Whichever stored packets are due are sent again. */
    method ProcessExpiredRetransmissions()
      requires Linked()
      modifies `outbox, `pendingPackets
      ensures Linked() && forall sent | old(SentOnly(sent)) :: SentOnly(sent)
    {
      hide Usable, Bounded;
      var due: set<nat> :| due <= pendingPackets.Keys;
      while due != {}
        invariant Linked() && due <= pendingPackets.Keys
        invariant forall sent | old(SentOnly(sent)) :: SentOnly(sent)
        decreases |due|
      {
        var n: nat :| n in due;
        due := due - {n};
        Resend(n);
      }
    }

    method Resend(n: nat)
      requires Linked() && n in pendingPackets
      modifies `outbox, `pendingPackets
      ensures Linked() && pendingPackets.Keys == old(pendingPackets.Keys)
      ensures forall sent | old(SentOnly(sent)) :: SentOnly(sent)
    {
      hide Usable;
      var entry := pendingPackets[n];
      if entry.attempts < QuicReliability.MAX_RETRIES {
        SendsSnoc(outbox, entry.packet);
        outbox := outbox + [entry.packet];
        pendingPackets := pendingPackets[n := Pending(entry.packet, entry.attempts + 1)];
      }
    }

    /** Waits for a packet of one type; acknowledgements are taken in, and other packets skipped. */
    method RecvLoop(wanted: int) returns (r: Outcome)
      requires Linked()
      modifies `inbox, `outbox, `pendingPackets
      ensures Linked() && forall sent | old(SentOnly(sent)) :: SentOnly(sent)
      ensures r.Got? ==> Decoded(r.packet) && r.packet.packetType == wanted && r.packet.connectionId == env.connectionId
      ensures old(inbox) == [] || |inbox| < |old(inbox)|
    {
      while inbox != []
        invariant Linked() && |inbox| <= |old(inbox)|
        invariant forall sent | old(SentOnly(sent)) :: SentOnly(sent)
        decreases |inbox|
      {
        var arrival := inbox[0];
        inbox := inbox[1..];
        if arrival.Timeout? {
          ProcessExpiredRetransmissions();
          return TimedOut;
        }
        var p := arrival.packet;
        if p.connectionId == env.connectionId {
          if p.packetType == ACK {
            if |p.payload| == 8 {
              pendingPackets := pendingPackets - {FromBigEndian(p.payload)};
            }
          } else if p.packetType == wanted {
            return Got(p, arrival.now);
          } else if p.packetType == CONNECTION_CLOSE {
            return Closed;
          }
        }
      }
      r := TimedOut;
    }

    /** Sends until an answer of the wanted type comes, which is acknowledged, or the budget is spent. */
    method TransmitWithRetry(packet: Packet, wanted: int) returns (r: Outcome, ghost ack: set<Packet>)
      requires Linked() && packet.packetNumber == sendPacketNumber
      modifies `inbox, `outbox, `pendingPackets, `sendPacketNumber
      ensures Linked() && forall sent | old(SentOnly(sent)) :: SentOnly(sent + {packet} + ack)
      ensures r.Got? ==> Decoded(r.packet) && r.packet.packetType == wanted && r.packet.connectionId == env.connectionId
      ensures sendPacketNumber == old(sendPacketNumber) + (if r.Got? then 2 else 1)
      ensures ack == if r.Got? then {AckOf(env, old(sendPacketNumber) + 1, r.packet)} else {}
    {
      hide Usable, Decoded;
      var n := sendPacketNumber;
      ack := {};
      Put(packet, true);
      while inbox != []
        invariant Linked() && sendPacketNumber == n + 1
        invariant forall sent | old(SentOnly(sent)) :: SentOnly(sent + {packet})
        decreases |inbox|
      {
        r := RecvLoop(wanted);
        match r {
          case Got(p, _) =>
            pendingPackets := pendingPackets - {n};
            ghost var a := SendAck(p);
            ack := {a};
            return;
          case TimedOut =>
            if n in pendingPackets {
              if pendingPackets[n].attempts >= QuicReliability.MAX_RETRIES {
                return;
              }
              Resend(n);
            }
          case _ =>
            return;
        }
      }
      r := TimedOut;
    }

    // -------------------------------------------------------------------------------------------
    // Connecting
    // -------------------------------------------------------------------------------------------

    /** As Valid, when the packet p has been acknowledged and its message is still to be handled. */
    ghost predicate Acknowledged(p: Packet)
      requires Decoded(p)
      reads this, handshake
    {
      Linked() && session.None? &&
      var (cl, sent) := Feed(env, events);
      View() == cl.(next := cl.next + 1) && SentOnly(sent + {AckOf(env, cl.next, p)})
    }

    /** Any error that reaches the caller. */
    ghost method GiveUp()
      requires Valid() && session.None?
      modifies `phase, `events
      ensures Valid() && phase.Failed?
    {
      hide Usable, Feed, Bounded;
      FeedGivesUp(env, events);
      events := events + [GivesUp];
      phase := Failed;
    }

    method SendHello() returns (r: Outcome)
      requires Valid() && phase.Idle?
      modifies this, handshake
      ensures r.Got? ==> Decoded(r.packet) && Acknowledged(r.packet) && phase.AwaitServerHello? &&
                         r.packet.packetType == HANDSHAKE && r.packet.connectionId == env.connectionId
      ensures !r.Got? ==> Valid() && phase.Failed?
    {
      hide Usable, Decoded, Feed, SendClientHello, AckOf;
      FeedConnect(env, events);
      ghost var sent := Feed(env, events).1;
      events := events + [Connects];
      var ch := handshake.ClientHello();
      phase := AwaitServerHello;
      var packet := Packet(INITIAL, env.connectionId, sendPacketNumber, ch, 0, PACKET_VERSION);
      assert SentOnly(sent);
      ghost var ack;
      r, ack := TransmitWithRetry(packet, HANDSHAKE);
      if !r.Got? {
        assert sent + {packet} + ack == sent + {packet};
        GiveUp();
      }
    }

    method HandleServerHello(p: Packet, now: int) returns (r: Outcome, partial: Option<Session>)
      requires Decoded(p) && Acknowledged(p) && phase.AwaitServerHello?
      requires p.packetType == HANDSHAKE && p.connectionId == env.connectionId
      modifies this, handshake
      ensures r.Got? ==> Decoded(r.packet) && Acknowledged(r.packet) && partial.Some? && phase == AwaitServerFinished(partial.value) &&
                         r.packet.packetType == HANDSHAKE && r.packet.connectionId == env.connectionId
      ensures !r.Got? ==> Valid() && phase.Failed?
    {
      hide Usable, Decoded, Feed, AckOf, OnServerHello, SetOf;
      ghost var (cl, sent) := Feed(env, events);
      ghost var myAck := AckOf(env, cl.next, p);
      FeedServerHello(env, events, p, now);
      events := events + [ClientReceives(p, now)];
      var answer := ReadServerHello(p, now, cl);
      if answer.Raise? {
        SetsOf(myAck, myAck);
        return Refused, None;
      }
      partial := Some(answer.value.1);
      var packet := HandshakePacket(env, sendPacketNumber, answer.value.0);
      SetsOf(myAck, packet);
      assert SentOnly(sent + {myAck});
      ghost var ack;
      r, ack := TransmitWithRetry(packet, HANDSHAKE);
      assert sent + {myAck} + {packet} == sent + {myAck, packet};
      if !r.Got? {
        assert sent + {myAck} + {packet} + ack == sent + {myAck, packet};
        GiveUp();
      }
    }

    method ReadServerHello(p: Packet, now: int, ghost cl: ClientSide) returns (r: Result<(Bytes, Session)>)
      requires Linked() && Decoded(p) && View() == cl.(next := cl.next + 1)
      modifies `phase, handshake
      ensures var (next, out) := OnServerHello(env, cl, p, now);
              if r.Raise? then View() == next && phase.Failed? && out == [AckOf(env, cl.next, p)]
              else
                View() == next.(next := cl.next + 1) && next.next == cl.next + 2 && phase == AwaitServerFinished(r.value.1) &&
                out == [AckOf(env, cl.next, p), HandshakePacket(env, cl.next + 1, r.value.0)]
    {
      hide Usable, Decoded, AckOf, ReceiveServerHello;
      r := ProcessServerHello(p.payload, now);
      phase := if r.Raise? then Failed else AwaitServerFinished(r.value.1);
    }

    method ProcessServerHello(msg: Bytes, now: int) returns (r: Result<(Bytes, Session)>)
      requires Linked()
      modifies handshake
      ensures (handshake.Fields(), r) == ReceiveServerHello(env.c, env.client, old(handshake.Fields()), msg, now)
    {
      hide ReceiveServerHello;
      r := handshake.ProcessServerHello(msg, now);
    }

    method HandleServerFinished(p: Packet, now: int, partial: Session)
      requires Decoded(p) && Acknowledged(p) && phase == AwaitServerFinished(partial)
      requires p.packetType == HANDSHAKE && p.connectionId == env.connectionId
      modifies this, handshake
      ensures Valid() && (phase.Open? || phase.Failed?)
    {
      hide Usable, Decoded, Feed, AckOf, OnServerFinished, SetOf;
      ghost var (cl, sent) := Feed(env, events);
      FeedServerFinished(env, events, p, now);
      events := events + [ClientReceives(p, now)];
      CompleteHandshake(p, partial, cl, sent);
      OpensOrFails(env, cl, p, partial);
    }

    /** From the acknowledged ServerFinished to the ClientFinished sent and the session set. */
    method CompleteHandshake(p: Packet, partial: Session, ghost cl: ClientSide, ghost sent: set<Packet>)
      requires Linked() && Decoded(p)
      requires View() == cl.(next := cl.next + 1) && SentOnly(sent + {AckOf(env, cl.next, p)})
      modifies this`session, this`sender, this`receiver, this`phase, this`outbox, this`pendingPackets, this`sendPacketNumber, handshake
      ensures Linked() && var (next, out) := OnServerFinished(env, cl, p, partial);
                          View() == next && SentOnly(sent + SetOf(out))
    {
      hide Usable, Decoded, AckOf, ReceiveServerFinished, SendClientFinished, SetOf, ClientDirection, ServerDirection, SentOnly, Bounded;
      ghost var myAck := AckOf(env, cl.next, p);
      SetsOf(myAck, myAck);
      var answer := ProcessServerFinished(p.payload, partial);
      phase := Failed;
      if answer.Raise? {
        return;
      }
      var finished := SendFinished();
      if finished.Raise? {
        return;
      }
      var packet := HandshakePacket(env, sendPacketNumber, finished.value);
      SetsOf(myAck, packet);
      Put(packet, false);
      assert sent + {myAck} + {packet} == sent + {myAck, packet};
      session := Some(answer.value);
      sender := ClientDirection(answer.value);
      receiver := ServerDirection(answer.value);
      phase := Open;
    }

    method ProcessServerFinished(msg: Bytes, partial: Session) returns (r: Result<Session>)
      requires Linked()
      modifies handshake
      ensures (handshake.Fields(), r) == ReceiveServerFinished(env.c, old(handshake.Fields()), msg, partial)
    {
      hide ReceiveServerFinished;
      r := handshake.ProcessServerFinished(msg, partial);
    }

    method SendFinished() returns (r: Result<Bytes>)
      requires Linked()
      modifies handshake
      ensures (handshake.Fields(), r) == SendClientFinished(env.c, old(handshake.Fields()))
    {
      hide SendClientFinished;
      r := handshake.ClientFinished();
    }

    /** The whole handshake, whatever arrives. */
    method Connect()
      requires Valid() && phase.Idle?
      modifies this, handshake
      ensures Valid() && (phase.Open? || phase.Failed?)
    {
      hide Usable, Decoded, Valid, Acknowledged, AckOf;
      var r := SendHello();
      if r.Got? {
        var partial;
        r, partial := HandleServerHello(r.packet, r.now);
        if r.Got? {
          HandleServerFinished(r.packet, r.now, partial.value);
        }
      }
    }

    // -------------------------------------------------------------------------------------------
    // Requests and replies
    // -------------------------------------------------------------------------------------------

    /**
      `send_application`: without a session nothing happens; a request that cannot be sealed uses up a
      number; otherwise the sealed packet is sent and stored.
    */
    method SendApplication(request: Bytes) returns (ok: bool)
      requires Valid()
      modifies this
      ensures Valid() && session == old(session) && sender == old(sender) && received == old(received) && inbox == old(inbox)
      ensures !ok ==> outbox == old(outbox) && pendingPackets == old(pendingPackets) && requests == old(requests)
      ensures old(session.None? || sender.None?) ==> !ok && sendPacketNumber == old(sendPacketNumber)
      ensures old(session.Some? && sender.Some?) ==>
                sendPacketNumber == old(sendPacketNumber) + 1 &&
                var m := Numbered(old(sendPacketNumber), request);
                var packet := AppPacket(env, old(sender), m);
                (ok <==> packet.Ok?) &&
                (ok ==> requests == old(requests) + [m] && outbox == old(outbox) + [packet.value] &&
                        pendingPackets == old(pendingPackets)[m.number := Pending(packet.value, 0)])
    {
      hide Usable, Feed, AppPacket, SetOf, Bounded, SendRequest, SentOnly;
      if session.None? || sender.None? {
        return false;
      }
      ghost var (cl, sent) := Feed(env, events);
      FeedRequest(env, events, request);
      SentRequest(env, cl, request);
      events := events + [Requests(request)];
      var m := Numbered(sendPacketNumber, request);
      assert sent + {} == sent;
      var packet := SealAndSend(m);
      ok := packet.Ok?;
      if ok {
        requests := requests + [m];
      }
    }

    /** A number is taken, and a packet sent and stored under it unless sealing raises. */
    method SealAndSend(m: Numbered) returns (packet: Result<Packet>)
      requires Linked() && m.number == sendPacketNumber
      modifies `sendPacketNumber, `outbox, `pendingPackets
      ensures Linked() && sendPacketNumber == old(sendPacketNumber) + 1 && packet == AppPacket(env, sender, m)
      ensures packet.Raise? ==> outbox == old(outbox) && pendingPackets == old(pendingPackets)
      ensures packet.Ok? ==> outbox == old(outbox) + [packet.value] &&
                             pendingPackets == old(pendingPackets)[m.number := Pending(packet.value, 0)]
      ensures forall sent | old(SentOnly(sent)) :: SentOnly(if packet.Ok? then sent + {packet.value} else sent)
    {
      hide Usable, AppPacket;
      packet := AppPacket(env, sender, m);
      if packet.Raise? {
        sendPacketNumber := sendPacketNumber + 1;
        return;
      }
      SealedNumber(env, sender, m);
      Put(packet.value, true);
    }

    /** The packet is acknowledged, and dropped when its number was processed before. */
    method TakeReply(p: Packet, now: int) returns (r: Taken)
      requires Valid() && phase.Open? && receiver.Some?
      requires Decoded(p) && p.packetType == APP_DATA && p.connectionId == env.connectionId
      modifies `sendPacketNumber, `outbox, `pendingPackets, `processedAppPackets, `received, `events
      ensures Valid()
      ensures processedAppPackets == if r.Reply? then old(processedAppPackets) + {p.packetNumber} else old(processedAppPackets)
      ensures r.Duplicate? <==> p.packetNumber in old(processedAppPackets)
      ensures r.Reply? ==> OpenApp(env, receiver.value, p) == Ok(r.plain)
      ensures received == if r.Reply? then old(received) + [r.plain] else old(received)
    {
      hide Usable, Decoded, Feed, AckOf, OpenApp, SetOf, Bounded, SentOnly;
      ghost var (cl, sent) := Feed(env, events);
      FeedReply(env, events, p, now);
      events := events + [ClientReceives(p, now)];
      ghost var a := SendAck(p);
      SetsOf(a, a);
      if p.packetNumber in processedAppPackets {
        return Duplicate;
      }
      var plain := OpenApp(env, receiver.value, p);
      if plain.Raise? {
        return Unopened;
      }
      processedAppPackets := processedAppPackets + {p.packetNumber};
      received := received + [plain.value];
      r := Reply(plain.value);
    }

    /**
      Returns the next reply, or nothing without a session, when the deadline passes, the peer closes or
      a packet does not open; the session stays, and a later call may still get the reply.
    */
    method RecvApplication() returns (r: Option<Bytes>)
      requires Valid()
      modifies this
      ensures Valid() && session == old(session) && requests == old(requests)
      ensures old(session).None? ==> r.None?
      ensures received == if r.Some? then old(received) + [r.value] else old(received)
    {
      hide Usable, Decoded, Feed, Bounded;
      if receiver.None? || session.None? {
        return None;
      }
      while inbox != []
        invariant Valid() && receiver.Some? && session.Some? && session == old(session)
        invariant requests == old(requests) && received == old(received)
        decreases |inbox|
      {
        assert SentOnly(Feed(env, events).1);
        var arrival := RecvLoop(APP_DATA);
        match arrival {
          case Got(p, now) =>
            var taken := TakeReply(p, now);
            if taken.Reply? {
              return Some(taken.plain);
            }
            if taken.Unopened? {
              return None;
            }
          case TimedOut =>
          case _ =>
            return None;
        }
        var deadlinePassed: bool :| true;
        if deadlinePassed && arrival.TimedOut? {
          return None;
        }
      }
      r := None;
    }
  }
}
