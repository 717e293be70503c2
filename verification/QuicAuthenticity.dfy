/** Application packets from anyone: what is acted on was sealed by the peer, when no ciphertext is forged. */
module QuicAuthenticity {
  import opened Wrappers
  import opened ByteStrings
  import opened Nonces
  import opened Primitives
  import opened QuicPackets
  import opened QuicEndpoints
  import RecordLayer

  /** This nonce, associated data and ciphertext are those of the sealed message. */
  predicate SealedAs(env: Env, d: RecordLayer.Direction, m: Numbered, nonce: Bytes, aad: Bytes, ciphertext: Bytes) {
    XorIvWithSeq(d.iv, m.number) == Ok(nonce) && EncodeHeader(APP_DATA, env.connectionId, m.number, 1, 0, PACKET_VERSION) == Ok(aad) &&
    ciphertext == env.c.aeadSeal(d.key, nonce, m.bytes, aad)
  }

  /** If the packet opens at all, then because the peer sealed exactly that: the premise on this one packet. */
  ghost predicate NotForged(env: Env, d: RecordLayer.Direction, messages: seq<Numbered>, p: Packet) {
    forall nonce, aad ::
      XorIvWithSeq(d.iv, p.packetNumber) == Ok(nonce) &&
      EncodeHeader(APP_DATA, env.connectionId, p.packetNumber, p.epoch, 0, PACKET_VERSION) == Ok(aad) &&
      env.c.aeadOpen(d.key, nonce, p.payload, aad).Some? ==>
        exists i | 0 <= i < |messages| :: SealedAs(env, d, messages[i], nonce, aad, p.payload)
  }

  /** A packet that opens carries the number, the epoch and the bytes of a message the peer sealed. */
  lemma OpenedWasSealed(env: Env, d: RecordLayer.Direction, messages: seq<Numbered>, p: Packet) returns (i: nat)
    requires AeadCorrect(env.c) && NotForged(env, d, messages, p) && OpenApp(env, d, p).Ok?
    ensures i < |messages| && p.packetNumber == messages[i].number && p.epoch == 1
    ensures OpenApp(env, d, p) == Ok(messages[i].bytes)
  {
    var nonce := XorIvWithSeq(d.iv, p.packetNumber).value;
    var aad := EncodeHeader(APP_DATA, env.connectionId, p.packetNumber, p.epoch, 0, PACKET_VERSION).value;
    assert env.c.aeadOpen(d.key, nonce, p.payload, aad).Some?;
    i :| 0 <= i < |messages| && SealedAs(env, d, messages[i], nonce, aad, p.payload);
    HeaderDetermines(env.connectionId, p.packetNumber, messages[i].number, p.epoch, 1);
  }

  /**
    Whatever application packet reaches an established server, from anyone: either nothing is handled
    and at most an acknowledgement is sent, or it is a client's message under its own number, not
    handled before, and what is handled is exactly that message.
  */
  lemma HandledWasSent(env: Env, s: ServerSide, p: Packet, messages: seq<Numbered>) returns (i: nat)
    requires AeadCorrect(env.c) && Decoded(p) && s.receiver.Some? && s.session.Some?
    requires NotForged(env, s.receiver.value, messages, p)
    ensures var (s', out) := OnRequest(env, s, p);
            if s'.handled == s.handled then s'.replies == s.replies && s'.processed == s.processed && |out| == 1 && out[0].packetType == ACK
            else
              i < |messages| && p.packetNumber == messages[i].number && p.packetNumber !in s.processed &&
              s'.processed == s.processed + {p.packetNumber} &&
              s'.handled == s.handled + [HandleRequest(env, s.handled, s.session.value, messages[i].bytes)]
  {
    i := 0;
    if p.packetNumber !in s.processed && OpenApp(env, s.receiver.value, p).Ok? {
      i := OpenedWasSealed(env, s.receiver.value, messages, p);
    }
    hide OpenApp, NotForged, HandleRequest, AppPacket, AeadCorrect;
  }

  /** The same for a client and the replies it takes; a packet that does not open changes nothing else. */
  lemma ReceivedWasSent(env: Env, cl: ClientSide, p: Packet, messages: seq<Numbered>) returns (i: nat)
    requires AeadCorrect(env.c) && Decoded(p) && cl.receiver.Some?
    requires NotForged(env, cl.receiver.value, messages, p)
    ensures var (cl', out) := OnReply(env, cl, p);
            if cl'.received == cl.received then cl' == cl.(next := cl.next + 1) && |out| == 1 && out[0].packetType == ACK
            else
              i < |messages| && p.packetNumber == messages[i].number && p.packetNumber !in cl.processed &&
              cl'.processed == cl.processed + {p.packetNumber} && cl'.received == cl.received + [messages[i].bytes]
  {
    i := 0;
    if p.packetNumber !in cl.processed && OpenApp(env, cl.receiver.value, p).Ok? {
      i := OpenedWasSealed(env, cl.receiver.value, messages, p);
    }
    hide OpenApp, NotForged, AeadCorrect;
  }
}
