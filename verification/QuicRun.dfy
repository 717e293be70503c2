/**
  Whole runs of one client and one server connection over a network that loses, duplicates, delays
  and reorders datagrams and on which either side may send old datagrams again at any time: the
  network keeps every datagram ever sent, and any of them may be delivered at any step, any number
  of times or never.
*/
module QuicRun {
  import opened ByteStrings
  import opened QuicPackets
  import opened QuicEndpoints

  // ---------------------------------------------------------------------------------------------
  // Runs
  // ---------------------------------------------------------------------------------------------

  datatype System = System(client: ClientSide, server: ServerSide, toServer: set<Packet>, toClient: set<Packet>)

  const START := System(NEW_CLIENT, NEW_SERVER, {}, {})

  datatype Event =
    | Connects
    | ServerReceives(packet: Packet)
    | ClientReceives(packet: Packet, now: int)
    | Requests(request: Bytes)
    | GivesUp

  function SetOf(packets: seq<Packet>): set<Packet> {
    set p | p in packets
  }

  /** One client connects once per connection id; it may send requests whether or not replies have come. */
  predicate Enabled(s: System, e: Event) {
    match e
    case Connects => s.client.phase.Idle?
    case ServerReceives(p) => p in s.toServer && Decoded(p)
    case ClientReceives(p, _) => p in s.toClient && Decoded(p)
    case Requests(_) => s.client.phase.Open?
    case GivesUp => true
  }

  /** `GivesUp` is any timeout or error of `connect`; a timeout of `recv_application` changes nothing and is no event. */
  function Next(env: Env, s: System, e: Event): System
    requires Usable(env) && Enabled(s, e)
  {
    match e
    case Connects =>
      var (client, out) := Connect(env, s.client);
      s.(client := client, toServer := s.toServer + SetOf(out))
    case ServerReceives(p) =>
      var (server, out) := ServerHandle(env, s.server, p);
      s.(server := server, toClient := s.toClient + SetOf(out))
    case ClientReceives(p, now) =>
      var (client, out) := ClientHandle(env, s.client, p, now);
      s.(client := client, toServer := s.toServer + SetOf(out))
    case Requests(request) =>
      var (client, out) := SendRequest(env, s.client, request);
      s.(client := client, toServer := s.toServer + SetOf(out))
    case GivesUp => s.(client := s.client.(phase := Failed))
  }

  /** The states that a list of events leads through. */
  ghost predicate IsRun(env: Env, trace: seq<System>, events: seq<Event>)
    requires Usable(env)
  {
    |trace| == |events| + 1 && trace[0] == START &&
    forall i | 0 <= i < |events| ::
      Enabled(trace[i], events[i]) && trace[i + 1] == Next(env, trace[i], events[i])
  }
}
