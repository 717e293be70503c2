/** Packet numbers over whole runs: never used twice, and acknowledgements name what they answer. */
module QuicNumbers {
  import opened ByteStrings
  import opened QuicPackets
  import opened QuicEndpoints
  import opened QuicRun
  import opened Handshake
  import QuicReliability

  /** The packets carry the numbers from `next` on, in order. */
  predicate Numbered(out: seq<Packet>, next: nat, later: nat) {
    next + |out| <= later && forall i | 0 <= i < |out| :: out[i].packetNumber == next + i
  }

  /** Whatever answers a packet starts with the acknowledgement of that packet's number. */
  predicate Acknowledges(out: seq<Packet>, p: Packet) {
    out != [] ==> out[0].packetType == ACK && |out[0].payload| == 8 && FromBigEndian(out[0].payload) == p.packetNumber
  }

  lemma AckNamesNumber(env: Env, number: nat, p: Packet)
    requires Decoded(p)
    ensures AckOf(env, number, p).packetType == ACK && AckOf(env, number, p).packetNumber == number
    ensures |AckOf(env, number, p).payload| == 8 && FromBigEndian(AckOf(env, number, p).payload) == p.packetNumber
  {
    hide BigEndian, FromBigEndian;
    FromBigEndianOfBigEndian(p.packetNumber, 8);
  }

  lemma RequestSends(env: Env, s: ServerSide, p: Packet)
    requires Decoded(p) && s.receiver.Some? && s.session.Some?
    ensures var (s', out) := OnRequest(env, s, p); Numbered(out, s.next, s'.next) && Acknowledges(out, p)
  {
    hide Decoded, AckOf, FromBigEndian, QuicReliability.SealPacket, OpenApp, HandleRequest;
    AckNamesNumber(env, s.next, p);
  }

  lemma ServerSends(env: Env, s: ServerSide, p: Packet)
    requires Usable(env) && Decoded(p)
    ensures var (s', out) := ServerHandle(env, s, p); Numbered(out, s.next, s'.next) && Acknowledges(out, p)
  {
    hide Usable, Decoded, AckOf, FromBigEndian, ReceiveClientHello, ReceiveClientKeyExchange, ReceiveClientFinished, OnRequest,
         IsClientKeyExchange, ClientDirection, ServerDirection;
    AckNamesNumber(env, s.next, p);
    if s.receiver.Some? && s.session.Some? {
      RequestSends(env, s, p);
    }
  }

  lemma ClientSends(env: Env, cl: ClientSide, p: Packet, now: int)
    requires Usable(env) && Decoded(p)
    ensures var (cl', out) := ClientHandle(env, cl, p, now); Numbered(out, cl.next, cl'.next) && Acknowledges(out, p)
  {
    hide Usable, Decoded, AckOf, FromBigEndian, ReceiveServerHello, ReceiveServerFinished, SendClientFinished, OpenApp,
         ClientDirection, ServerDirection;
    AckNamesNumber(env, cl.next, p);
  }

  lemma RequestNumbered(env: Env, cl: ClientSide, request: Bytes)
    ensures var (cl', out) := SendRequest(env, cl, request); Numbered(out, cl.next, cl'.next)
  {
    hide QuicReliability.SealPacket;
  }

  /** No two packets of one sender have the same number. */
  ghost predicate Distinct(packets: set<Packet>, next: nat) {
    (forall p | p in packets :: 0 <= p.packetNumber < next) &&
    forall p, q | p in packets && q in packets && p.packetNumber == q.packetNumber :: p == q
  }

  lemma MoreDistinct(packets: set<Packet>, next: nat, out: seq<Packet>, later: nat)
    requires Distinct(packets, next) && Numbered(out, next, later)
    ensures Distinct(packets + SetOf(out), later)
  {
    forall p | p in SetOf(out) ensures next <= p.packetNumber < later {
      var i :| 0 <= i < |out| && out[i] == p;
    }
    forall p, q | p in SetOf(out) && q in SetOf(out) && p.packetNumber == q.packetNumber ensures p == q {
      var i :| 0 <= i < |out| && out[i] == p;
      var j :| 0 <= j < |out| && out[j] == q;
    }
  }

  lemma StepKeepsDistinct(env: Env, s: System, e: Event)
    requires Usable(env) && Enabled(s, e) && Distinct(s.toServer, s.client.next) && Distinct(s.toClient, s.server.next)
    ensures var s' := Next(env, s, e); Distinct(s'.toServer, s'.client.next) && Distinct(s'.toClient, s'.server.next)
  {
    hide Usable, Decoded, ServerHandle, ClientHandle, SendRequest, SetOf, Numbered, Distinct, Acknowledges, SendClientHello;
    match e
    case Connects =>
      var (cl', out) := Connect(env, s.client);
      OneNumbered(out, s.client.next);
      MoreDistinct(s.toServer, s.client.next, out, cl'.next);
    case ServerReceives(p) =>
      ServerSends(env, s.server, p);
      MoreDistinct(s.toClient, s.server.next, ServerHandle(env, s.server, p).1, ServerHandle(env, s.server, p).0.next);
    case ClientReceives(p, now) =>
      ClientSends(env, s.client, p, now);
      MoreDistinct(s.toServer, s.client.next, ClientHandle(env, s.client, p, now).1, ClientHandle(env, s.client, p, now).0.next);
    case Requests(request) =>
      RequestNumbered(env, s.client, request);
      MoreDistinct(s.toServer, s.client.next, SendRequest(env, s.client, request).1, SendRequest(env, s.client, request).0.next);
    case GivesUp =>
  }

  lemma OneNumbered(out: seq<Packet>, next: nat)
    requires |out| == 1 && out[0].packetNumber == next
    ensures Numbered(out, next, next + 1)
  {
  }

  /** In every run neither side sends two packets with one number; what is sent again is the same packet. */
  lemma {:induction false} NumbersNeverRepeat(env: Env, trace: seq<System>, events: seq<Event>, i: nat)
    requires Usable(env) && IsRun(env, trace, events) && i < |trace|
    ensures Distinct(trace[i].toServer, trace[i].client.next) && Distinct(trace[i].toClient, trace[i].server.next)
  {
    hide Usable, Enabled, Next;
    if i > 0 {
      NumbersNeverRepeat(env, trace, events, i - 1);
      StepKeepsDistinct(env, trace[i - 1], events[i - 1]);
      assert trace[i - 1 + 1] == Next(env, trace[i - 1], events[i - 1]);
    }
  }
}
