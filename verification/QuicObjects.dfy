/** The server's connection objects, which `_handle_packet` updates in place. */
module QuicObjects {
  import opened Wrappers
  import opened ByteStrings
  import opened Handshake
  import opened Application
  import opened QuicPackets
  import opened QuicEndpoints
  import HandshakeObjects
  import RecordLayer

  class ServerConnection {
    const env: Env
    const handshake: HandshakeObjects.ServerHandshake
    var phase: ServerPhase
    var sendPacketNumber: nat
    var session: Option<Session>
    var sender: Option<RecordLayer.Direction>
    var receiver: Option<RecordLayer.Direction>
    var processedAppPackets: set<int>
    var cachedServerHello: Option<Bytes>
    var cachedServerFinished: Option<Bytes>
    /** What the socket was given. */
    var outbox: seq<Packet>
    /** What the application has been through, which stands for its state. */
    var handled: seq<Handled>
    ghost var replies: seq<Numbered>

    ghost predicate Valid()
      reads this
    {
      handshake.c == env.c && handshake.server == env.server && (receiver.Some? ==> session.Some?)
    }

    ghost function View(): ServerSide
      reads this, handshake
    {
      ServerSide(phase, handshake.Fields(), sendPacketNumber, cachedServerHello, cachedServerFinished, session, sender, receiver,
                 processedAppPackets, handled, replies)
    }

    constructor (env: Env)
      ensures Valid() && this.env == env && View() == NEW_SERVER && outbox == [] && fresh(handshake)
    {
      this.env := env;
      handshake := new HandshakeObjects.ServerHandshake(env.c, env.server);
      phase := AwaitInitial;
      sendPacketNumber := 0;
      session := None;
      sender := None;
      receiver := None;
      processedAppPackets := {};
      cachedServerHello := None;
      cachedServerFinished := None;
      outbox := [];
      handled := [];
      replies := [];
    }

    method SendAck(p: Packet)
      requires Decoded(p)
      modifies `sendPacketNumber, `outbox
      ensures sendPacketNumber == old(sendPacketNumber) + 1
      ensures outbox == old(outbox) + [AckOf(env, old(sendPacketNumber), p)]
    {
      outbox := outbox + [AckOf(env, sendPacketNumber, p)];
      sendPacketNumber := sendPacketNumber + 1;
    }

    method SendHandshake(payload: Bytes)
      modifies `sendPacketNumber, `outbox
      ensures sendPacketNumber == old(sendPacketNumber) + 1
      ensures outbox == old(outbox) + [HandshakePacket(env, old(sendPacketNumber), payload)]
    {
      outbox := outbox + [HandshakePacket(env, sendPacketNumber, payload)];
      sendPacketNumber := sendPacketNumber + 1;
    }

    method OnInitial(p: Packet)
      requires Valid() && Usable(env) && Decoded(p)
      modifies this, handshake
      ensures Valid()
      ensures var r := OnClientHello(env, old(View()), p); View() == r.0 && outbox == old(outbox) + r.1
    {
      hide Usable, Decoded, ReceiveClientHello, AckOf;
      SendAck(p);
      var answer := HandleClientHello(p.payload);
      if answer.Ok? {
        cachedServerHello := Some(answer.value);
        SendHandshake(answer.value);
        phase := AwaitKeyExchange;
      }
    }

    method HandleClientHello(msg: Bytes) returns (r: Result<Bytes>)
      requires Valid() && Usable(env)
      modifies handshake
      ensures (handshake.Fields(), r) == ReceiveClientHello(env.c, env.server, old(handshake.Fields()), msg)
    {
      r := handshake.ProcessClientHello(msg);
    }

    method OnKeyExchangeMessage(p: Packet)
      requires Valid() && Usable(env) && Decoded(p)
      modifies this, handshake
      ensures Valid()
      ensures var r := OnKeyExchange(env, old(View()), p); View() == r.0 && outbox == old(outbox) + r.1
    {
      hide Usable, Decoded, ReceiveClientKeyExchange, AckOf;
      SendAck(p);
      var answer := HandleKeyExchange(p.payload);
      if answer.Ok? {
        cachedServerFinished := Some(answer.value);
        SendHandshake(answer.value);
        phase := AwaitClientFinished;
      }
    }

    method HandleKeyExchange(msg: Bytes) returns (r: Result<Bytes>)
      requires Valid() && Usable(env)
      modifies handshake
      ensures (handshake.Fields(), r) == ReceiveClientKeyExchange(env.c, env.server, old(handshake.Fields()), msg)
    {
      r := handshake.ProcessClientKeyExchange(msg);
    }

    method OnFinishedMessage(p: Packet)
      requires Valid() && Usable(env) && Decoded(p)
      modifies this, handshake
      ensures Valid()
      ensures var r := OnClientFinished(env, old(View()), p); View() == r.0 && outbox == old(outbox) + r.1
    {
      hide Usable, Decoded, ReceiveClientFinished, AckOf, ClientDirection, ServerDirection;
      SendAck(p);
      var answer := HandleFinished(p.payload);
      if answer.Ok? {
        session := Some(answer.value);
        sender := ServerDirection(answer.value);
        receiver := ClientDirection(answer.value);
        phase := Established;
      }
    }

    method HandleFinished(msg: Bytes) returns (r: Result<Session>)
      requires Valid() && Usable(env)
      modifies handshake
      ensures (handshake.Fields(), r) == ReceiveClientFinished(env.c, env.server, old(handshake.Fields()), msg)
    {
      r := handshake.VerifyClientFinished(msg);
    }

    method RepeatCached(p: Packet, cached: Option<Bytes>)
      requires Decoded(p)
      modifies `sendPacketNumber, `outbox
      ensures var r := Repeat(env, old(View()), p, cached); View() == r.0 && outbox == old(outbox) + r.1
    {
      if cached.Some? {
        SendAck(p);
        SendHandshake(cached.value);
      }
    }

    method OnAppData(p: Packet)
      requires Valid() && Decoded(p) && receiver.Some?
      modifies this
      ensures Valid()
      ensures var r := OnRequest(env, old(View()), p); View() == r.0 && outbox == old(outbox) + r.1
    {
      hide Decoded, OpenApp, AckOf, AppPacket;
      SendAck(p);
      if p.packetNumber in processedAppPackets {
        return;
      }
      var request := OpenApp(env, receiver.value, p);
      if request.Raise? {
        return;
      }
      processedAppPackets := processedAppPackets + {p.packetNumber};
      if !env.parses(request.value) {
        handled := handled + [Rejected(request.value)];
        return;
      }
      var response := env.app(handled, session.value, request.value);
      handled := handled + [Ran(request.value, response)];
      if response.Raise? {
        return;
      }
      var reply := Numbered(sendPacketNumber, response.value);
      var packet := AppPacket(env, sender, reply);
      sendPacketNumber := sendPacketNumber + 1;
      if packet.Ok? {
        outbox := outbox + [packet.value];
        replies := replies + [reply];
      }
    }

    /** Any packet for this connection, up to CONNECTION_CLOSE. */
    method HandlePacket(p: Packet)
      requires Valid() && Usable(env) && Decoded(p)
      modifies this, handshake
      ensures Valid()
      ensures var r := ServerHandle(env, old(View()), p); View() == r.0 && outbox == old(outbox) + r.1
    {
      hide Usable, Decoded, OnClientHello, OnKeyExchange, OnClientFinished, OnRequest, Repeat, IsClientKeyExchange;
      if p.packetType == ACK || p.packetType == CONNECTION_CLOSE {
        return;
      }
      match phase {
        case AwaitInitial =>
          if p.packetType == INITIAL {
            OnInitial(p);
          }
        case AwaitKeyExchange =>
          if p.packetType == HANDSHAKE {
            OnKeyExchangeMessage(p);
          } else if p.packetType == INITIAL {
            RepeatCached(p, cachedServerHello);
          }
        case AwaitClientFinished =>
          if p.packetType == INITIAL {
            RepeatCached(p, cachedServerHello);
          } else if p.packetType == HANDSHAKE {
            if IsClientKeyExchange(p.payload) && cachedServerFinished.Some? {
              RepeatCached(p, cachedServerFinished);
            } else {
              OnFinishedMessage(p);
            }
          }
        case Established =>
          if p.packetType == APP_DATA && receiver.Some? {
            OnAppData(p);
          }
      }
    }
  }

  /** The server: one connection object per connection id. */
  class KEMTLSQUICServer {
    var connections: map<Bytes, ServerConnection>

    /** No object belongs to two connections. */
    ghost predicate Valid()
      reads this, connections.Values
    {
      (forall id | id in connections ::
         connections[id].Valid() && Usable(connections[id].env) && connections[id].env.connectionId == id) &&
      (forall a, b | a in connections && b in connections && a != b ::
         connections[a] != connections[b] && connections[a].handshake != connections[b].handshake)
    }

    constructor ()
      ensures Valid() && connections == map[]
    {
      connections := map[];
    }

    ghost predicate OthersUntouched(id: Bytes, before: map<Bytes, ServerConnection>, views: map<Bytes, (ServerSide, seq<Packet>)>)
      reads this, connections.Values, set k | k in connections :: connections[k].handshake
      requires views.Keys == before.Keys
    {
      forall k | k in before && k != id ::
        k in connections && connections[k] == before[k] && (connections[k].View(), connections[k].outbox) == views[k]
    }

    /** The state of each connection, and what it has sent. */
    ghost function Views(): (views: map<Bytes, (ServerSide, seq<Packet>)>)
      reads this, connections.Values, set k | k in connections :: connections[k].handshake
      ensures views.Keys == connections.Keys
    {
      map k | k in connections :: (connections[k].View(), connections[k].outbox)
    }

    method Started(env: Env, p: Packet) returns (connection: ServerConnection)
      requires Usable(env) && Decoded(p)
      ensures fresh(connection) && fresh(connection.handshake) && connection.Valid() && connection.env == env
      ensures (connection.View(), connection.outbox) == ServerHandle(env, NEW_SERVER, p)
    {
      hide Usable, Decoded, ServerHandle;
      connection := new ServerConnection(env);
      connection.HandlePacket(p);
      assert [] + ServerHandle(env, NEW_SERVER, p).1 == ServerHandle(env, NEW_SERVER, p).1;
    }

    /** A connection starts with the first INITIAL packet; `env` holds what it is made with. */
    method Accept(env: Env, p: Packet)
      requires Valid() && Usable(env) && Decoded(p) && env.connectionId == p.connectionId && p.connectionId !in connections
      modifies this
      ensures Valid() && connections.Keys == old(connections.Keys) + {p.connectionId}
      ensures (connections[p.connectionId].View(), connections[p.connectionId].outbox) == ServerHandle(env, NEW_SERVER, p)
      ensures OthersUntouched(p.connectionId, old(connections), old(Views()))
    {
      hide Usable, Decoded, ServerHandle, ServerConnection.Valid, ServerConnection.View;
      var connection := Started(env, p);
      connections := connections[p.connectionId := connection];
    }

    method Deliver(p: Packet)
      requires Valid() && Decoded(p) && p.connectionId in connections
      modifies connections[p.connectionId], connections[p.connectionId].handshake
      ensures Valid() && connections == old(connections)
      ensures var connection := connections[p.connectionId];
              var (view, out) := ServerHandle(connection.env, old(connection.View()), p);
              connection.View() == view && connection.outbox == old(connections[p.connectionId].outbox) + out
      ensures OthersUntouched(p.connectionId, old(connections), old(Views()))
    {
      hide Usable, Decoded, ServerHandle;
      connections[p.connectionId].HandlePacket(p);
    }

    method HandlePacket(env: Env, p: Packet)
      requires Valid() && Usable(env) && Decoded(p) && env.connectionId == p.connectionId
      modifies this, connections.Values, set id | id in connections :: connections[id].handshake
      ensures Valid()
      ensures OthersUntouched(p.connectionId, old(connections), old(Views()))
      ensures p.connectionId !in old(connections) && p.packetType != INITIAL ==> connections == old(connections)
      ensures p.connectionId !in old(connections) && p.packetType == INITIAL ==>
                connections.Keys == old(connections.Keys) + {p.connectionId} &&
                (connections[p.connectionId].View(), connections[p.connectionId].outbox) == ServerHandle(env, NEW_SERVER, p)
      ensures p.connectionId in old(connections) && p.packetType == CONNECTION_CLOSE ==>
                connections == old(connections) - {p.connectionId}
      ensures p.connectionId in old(connections) && p.packetType != CONNECTION_CLOSE ==>
                connections == old(connections) &&
                var (view, out) := ServerHandle(connections[p.connectionId].env, old(connections[p.connectionId].View()), p);
                connections[p.connectionId].View() == view &&
                connections[p.connectionId].outbox == old(connections[p.connectionId].outbox) + out
    {
      hide Usable, Decoded, ServerHandle;
      if p.connectionId !in connections {
        if p.packetType == INITIAL {
          Accept(env, p);
        }
      } else if p.packetType == CONNECTION_CLOSE {
        connections := connections - {p.connectionId};
      } else {
        Deliver(p);
      }
    }
  }
}
