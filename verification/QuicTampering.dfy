/**
  The server connection under a network that sends it whatever it likes: what its state can be after
  any list of packets, handlers that raise included, and what an accepted ClientFinished then means.
*/
module QuicTampering {
  import opened Wrappers
  import opened ByteStrings
  import opened CanonicalJson
  import opened Messages
  import opened Primitives
  import opened KeySchedule
  import opened Handshake
  import opened HandshakeTampering
  import opened QuicPackets
  import opened QuicEndpoints
  import HandshakeRun

  // ---------------------------------------------------------------------------------------------
  // The three server handlers on arbitrary bytes
  // ---------------------------------------------------------------------------------------------

  /** The mode that a server would choose for a decoded ClientHello. */
  function HelloMode(server: Server, hello: Value): Result<string> {
    if !hello.Obj? then Raise(AttributeError) else ChooseMode(server, ValueOr(hello.Get("modes"), Arr([])))
  }

  /** JSON that the ClientHello handler appends and then refuses. */
  predicate RefusedHello(server: Server, msg: Bytes) {
    Deserialize(msg).Ok? && HelloMode(server, Deserialize(msg).value).Raise?
  }

  /** A ClientHello that is accepted, and the answer. */
  predicate AcceptedHello(c: Suite, server: Server, hello: seq<Bytes>)
    requires IsMessage(server.cert)
  {
    |hello| == 2 && Deserialize(hello[0]).Ok? &&
    var mode := HelloMode(server, Deserialize(hello[0]).value);
    mode.Ok? && hello[1] == Serialize(ServerHello(c, server, mode.value)).value
  }

  /** JSON that the ClientKeyExchange handler appends and then refuses. */
  predicate RefusedExchange(c: Suite, server: Server, msg: Bytes) {
    Deserialize(msg).Ok? && DecapsulateBoth(c, server, Deserialize(msg).value).Raise?
  }

  /** A ClientKeyExchange that is accepted with this secret, and the answer. */
  predicate AcceptedExchange(c: Suite, server: Server, exchange: seq<Bytes>, secret: Bytes) {
    |exchange| == 2 && Deserialize(exchange[0]).Ok? && Deserialize(exchange[1]).Ok? &&
    DecapsulateBoth(c, server, Deserialize(exchange[0]).value) == Ok(secret)
  }

  function Appended(st: State, msg: Bytes): State {
    HandshakeRun.Appended(st, msg)
  }

  lemma HelloHandled(c: Suite, server: Server, st: State, msg: Bytes)
    requires IsMessage(server.cert)
    ensures var r := ReceiveClientHello(c, server, st, msg);
            if Deserialize(msg).Raise? then r.0 == st && r.1.Raise?
            else if RefusedHello(server, msg) then r.0 == Appended(st, msg) && r.1.Raise?
            else r.1.Ok? && AcceptedHello(c, server, [msg, r.1.value]) && r.0 == Appended(Appended(st, msg), r.1.value)
  {
    hide Deserialize, Serialize, ChooseMode, ServerHello, IsMessage, Find;
  }

  lemma ExchangeHandled(c: Suite, server: Server, st: State, msg: Bytes)
    requires HashesHaveFixedSize(c)
    ensures var r := ReceiveClientKeyExchange(c, server, st, msg);
            if Deserialize(msg).Raise? then r.0 == st && r.1.Raise?
            else if RefusedExchange(c, server, msg) then r.0 == Appended(st, msg) && r.1.Raise?
            else
              var secret := DecapsulateBoth(c, server, Deserialize(msg).value);
              secret.Ok? && r.1.Ok? && AcceptedExchange(c, server, [msg, r.1.value], secret.value) &&
              r.0 == Appended(WithSecrets(c, Appended(st, msg), secret.value), r.1.value)
  {
    hide Deserialize, Serialize, DecapsulateBoth, WithSecrets, ServerFinishedMac;
    if Deserialize(msg).Ok? && DecapsulateBoth(c, server, Deserialize(msg).value).Ok? {
      var st2 := WithSecrets(c, Appended(st, msg), DecapsulateBoth(c, server, Deserialize(msg).value).value);
      SecretsKeepTranscript(c, Appended(st, msg), DecapsulateBoth(c, server, Deserialize(msg).value).value);
      HandshakeRun.FinishedDecodes("ServerFinished", ServerFinishedMac(c, st2));
    }
  }

  lemma FinishedHandled(c: Suite, server: Server, st: State, msg: Bytes)
    requires HashesHaveFixedSize(c)
    ensures var r := ReceiveClientFinished(c, server, st, msg);
            r.0 == st || (Deserialize(msg).Ok? && r.0 == Appended(st, msg))
  {
    hide Deserialize, DecodeBytesField, SessionKeys, ModeOfTranscript, TranscriptHash;
  }

  // ---------------------------------------------------------------------------------------------
  // The shape of a server's transcript
  // ---------------------------------------------------------------------------------------------

  /**
    Refused hellos, the accepted hello with its answer, refused key exchanges, the accepted one with
    its answer, and what was appended after that.
  */
  datatype Shape = Shape(before: seq<Bytes>, hello: seq<Bytes>, between: seq<Bytes>, exchange: seq<Bytes>, after: seq<Bytes>)

  function Laid(x: Shape): seq<Bytes> {
    x.before + x.hello + x.between + x.exchange + x.after
  }

  predicate NoKeys(st: State) {
    st.handshakeSecret.None? && st.clientFinKey.None? && st.serverFinKey.None?
  }

  ghost predicate PartsOk(c: Suite, server: Server, phase: ServerPhase, st: State, x: Shape)
    requires HashesHaveFixedSize(c) && IsMessage(server.cert)
  {
    (forall i | 0 <= i < |x.before| :: RefusedHello(server, x.before[i])) &&
    (forall i | 0 <= i < |x.between| :: RefusedExchange(c, server, x.between[i])) &&
    match phase
    case AwaitInitial => x.hello == x.between == x.exchange == x.after == [] && NoKeys(st)
    case AwaitKeyExchange => AcceptedHello(c, server, x.hello) && x.exchange == x.after == [] && NoKeys(st)
    case _ =>
      AcceptedHello(c, server, x.hello) && KeysOver(c, st) && AcceptedExchange(c, server, x.exchange, st.handshakeSecret.value)
  }

  /** The answers that are kept for repetition are those of the accepted messages. */
  predicate Keeps(s: ServerSide, x: Shape) {
    match s.phase
    case AwaitInitial => s.cachedHello.None? && s.cachedFinished.None?
    case AwaitKeyExchange => |x.hello| == 2 && s.cachedHello == Some(x.hello[1]) && s.cachedFinished.None?
    case _ => |x.hello| == 2 && |x.exchange| == 2 && s.cachedHello == Some(x.hello[1]) && s.cachedFinished == Some(x.exchange[1])
  }

  ghost predicate Fits(c: Suite, server: Server, s: ServerSide, x: Shape)
    requires HashesHaveFixedSize(c) && IsMessage(server.cert)
  {
    Keeps(s, x) && s.st.transcript == Laid(x) && AllDecode(s.st.transcript) && PartsOk(c, server, s.phase, s.st, x)
  }

  lemma AppendDecodes(t: seq<Bytes>, msg: Bytes)
    requires AllDecode(t) && Deserialize(msg).Ok?
    ensures AllDecode(t + [msg])
  {
    hide Deserialize;
  }

  lemma AppendKeepsKeysOver(c: Suite, st: State, msg: Bytes)
    requires HashesHaveFixedSize(c) && KeysOver(c, st)
    ensures KeysOver(c, Appended(st, msg))
  {
    hide ClientFinishedKey, ServerFinishedKey, TranscriptHash;
    assert Take(st.transcript + [msg], 2) == Take(st.transcript, 2);
  }

  lemma SecretsMakeKeysOver(c: Suite, st: State, secret: Bytes)
    requires HashesHaveFixedSize(c) && |st.transcript| >= 3
    ensures KeysOver(c, WithSecrets(c, st, secret)) && WithSecrets(c, st, secret).handshakeSecret == Some(secret)
  {
    hide ClientFinishedKey, ServerFinishedKey, TranscriptHash;
  }

  lemma HelloKeepsShape(c: Suite, server: Server, s: ServerSide, s': ServerSide, msg: Bytes, x: Shape) returns (x': Shape)
    requires HashesHaveFixedSize(c) && IsMessage(server.cert) && Fits(c, server, s, x) && s.phase.AwaitInitial?
    requires var r := ReceiveClientHello(c, server, s.st, msg);
             s'.st == r.0 && s'.phase == (if r.1.Ok? then AwaitKeyExchange else AwaitInitial) &&
             s'.cachedHello == (if r.1.Ok? then Some(r.1.value) else s.cachedHello) && s'.cachedFinished == s.cachedFinished
    ensures Fits(c, server, s', x')
  {
    hide ReceiveClientHello, Deserialize, HelloMode, Serialize, ServerHello, RefusedExchange, AcceptedExchange, KeysOver, IsMessage,
         HashesHaveFixedSize;
    HelloHandled(c, server, s.st, msg);
    var r := ReceiveClientHello(c, server, s.st, msg);
    if Deserialize(msg).Raise? {
      x' := x;
    } else if RefusedHello(server, msg) {
      x' := x.(before := x.before + [msg]);
      AppendDecodes(s.st.transcript, msg);
      assert Laid(x') == Laid(x) + [msg];
    } else {
      x' := x.(hello := [msg, r.1.value]);
      AppendDecodes(s.st.transcript, msg);
      AnswerDecodes(c, server, x'.hello);
      AppendDecodes(s.st.transcript + [msg], r.1.value);
      assert Laid(x') == Laid(x) + [msg] + [r.1.value];
    }
  }

  lemma AnswerDecodes(c: Suite, server: Server, hello: seq<Bytes>)
    requires IsMessage(server.cert) && AcceptedHello(c, server, hello)
    ensures Deserialize(hello[1]).Ok? && Deserialize(hello[1]).value.Obj?
    ensures Deserialize(hello[1]).value.Get("type") == Some(Str("ServerHello"))
  {
    hide Deserialize, Serialize, ServerHello, ChooseMode, Normal, Find;
    var mode := HelloMode(server, Deserialize(hello[0]).value).value;
    var message := ServerHello(c, server, mode);
    HandshakeRun.ReadMessage(message);
    HelloType(c, server, mode);
    HandshakeRun.ReadField(message, "type");
  }

  lemma HelloType(c: Suite, server: Server, mode: string)
    requires IsMessage(server.cert)
    ensures ServerHello(c, server, mode).Get("type") == Some(Str("ServerHello"))
  {
    FindAt(ServerHello(c, server, mode).fields, 0);
  }

  lemma ExchangeKeepsShape(c: Suite, server: Server, s: ServerSide, s': ServerSide, msg: Bytes, x: Shape) returns (x': Shape)
    requires HashesHaveFixedSize(c) && IsMessage(server.cert) && Fits(c, server, s, x) && s.phase.AwaitKeyExchange?
    requires var r := ReceiveClientKeyExchange(c, server, s.st, msg);
             s'.st == r.0 && s'.phase == (if r.1.Ok? then AwaitClientFinished else AwaitKeyExchange) &&
             s'.cachedHello == s.cachedHello && s'.cachedFinished == (if r.1.Ok? then Some(r.1.value) else s.cachedFinished)
    ensures Fits(c, server, s', x')
  {
    hide ReceiveClientKeyExchange, Deserialize, RefusedHello, HelloMode, Serialize, ServerHello, DecapsulateBoth, KeysOver, IsMessage,
         HashesHaveFixedSize, WithSecrets;
    ExchangeHandled(c, server, s.st, msg);
    var r := ReceiveClientKeyExchange(c, server, s.st, msg);
    if Deserialize(msg).Raise? {
      x' := x;
    } else if RefusedExchange(c, server, msg) {
      x' := x.(between := x.between + [msg]);
      AppendDecodes(s.st.transcript, msg);
      assert Laid(x') == Laid(x) + [msg];
    } else {
      var secret := DecapsulateBoth(c, server, Deserialize(msg).value).value;
      x' := x.(exchange := [msg, r.1.value]);
      AppendDecodes(s.st.transcript, msg);
      AppendDecodes(s.st.transcript + [msg], r.1.value);
      SecretsKeepTranscript(c, Appended(s.st, msg), secret);
      SecretsMakeKeysOver(c, Appended(s.st, msg), secret);
      AppendKeepsKeysOver(c, WithSecrets(c, Appended(s.st, msg), secret), r.1.value);
      assert Laid(x') == Laid(x) + [msg] + [r.1.value];
    }
  }

  lemma FinishedKeepsShape(c: Suite, server: Server, s: ServerSide, s': ServerSide, msg: Bytes, x: Shape) returns (x': Shape)
    requires HashesHaveFixedSize(c) && IsMessage(server.cert) && Fits(c, server, s, x) && s.phase.AwaitClientFinished?
    requires s'.st == ReceiveClientFinished(c, server, s.st, msg).0 && (s'.phase.AwaitClientFinished? || s'.phase.Established?)
    requires s'.cachedHello == s.cachedHello && s'.cachedFinished == s.cachedFinished
    ensures Fits(c, server, s', x')
  {
    hide ReceiveClientFinished, Deserialize, RefusedHello, RefusedExchange, AcceptedHello, AcceptedExchange, KeysOver, IsMessage,
         HashesHaveFixedSize;
    FinishedHandled(c, server, s.st, msg);
    if s'.st == s.st {
      x' := x;
    } else {
      x' := x.(after := x.after + [msg]);
      AppendDecodes(s.st.transcript, msg);
      AppendKeepsKeysOver(c, s.st, msg);
      assert Laid(x') == Laid(x) + [msg];
    }
  }

  // ---------------------------------------------------------------------------------------------
  // Every list of packets
  // ---------------------------------------------------------------------------------------------

  predicate AllDecoded(packets: seq<Packet>) {
    forall i | 0 <= i < |packets| :: Decoded(packets[i])
  }

  /** The connection after these packets, in this order, from its start. */
  function Reached(env: Env, packets: seq<Packet>): ServerSide
    requires Usable(env) && AllDecoded(packets)
  {
    if packets == [] then NEW_SERVER
    else ServerHandle(env, Reached(env, packets[..|packets| - 1]), packets[|packets| - 1]).0
  }

  lemma PacketKeepsShape(env: Env, s: ServerSide, p: Packet, x: Shape) returns (x': Shape)
    requires Usable(env) && Decoded(p) && Fits(env.c, env.server, s, x)
    ensures Fits(env.c, env.server, ServerHandle(env, s, p).0, x')
  {
    hide Decoded, ReceiveClientHello, ReceiveClientKeyExchange, ReceiveClientFinished, AckOf, OpenApp, HandleRequest, AppPacket,
         IsClientKeyExchange, ClientDirection, ServerDirection, HashesHaveFixedSize, IsMessage, PartsOk, AllDecode, Laid;
    var s' := ServerHandle(env, s, p).0;
    if s.phase.AwaitInitial? && p.packetType == INITIAL {
      x' := HelloKeepsShape(env.c, env.server, s, s', p.payload, x);
    } else if s.phase.AwaitKeyExchange? && p.packetType == HANDSHAKE {
      x' := ExchangeKeepsShape(env.c, env.server, s, s', p.payload, x);
    } else if s.phase.AwaitClientFinished? && s'.st != s.st {
      x' := FinishedKeepsShape(env.c, env.server, s, s', p.payload, x);
    } else {
      x' := x;
      SamePartsOk(env, s, s', x);
    }
  }

  lemma SamePartsOk(env: Env, s: ServerSide, s': ServerSide, x: Shape)
    requires Usable(env) && Fits(env.c, env.server, s, x) && s'.st == s.st
    requires s'.phase == s.phase || (s.phase.AwaitClientFinished? && s'.phase.Established?)
    requires s'.cachedHello == s.cachedHello && s'.cachedFinished == s.cachedFinished
    ensures Fits(env.c, env.server, s', x)
  {
    hide HashesHaveFixedSize, IsMessage, RefusedHello, RefusedExchange, AcceptedHello, AcceptedExchange, KeysOver, AllDecode, Laid;
  }

  /** After any packets, in any order, accepted or refused, the transcript has its shape. */
  lemma {:induction false} TranscriptShape(env: Env, packets: seq<Packet>) returns (x: Shape)
    requires Usable(env) && AllDecoded(packets)
    ensures Fits(env.c, env.server, Reached(env, packets), x)
  {
    hide Decoded, ServerHandle;
    if packets == [] {
      x := Shape([], [], [], [], []);
    } else {
      var n := |packets| - 1;
      var y := TranscriptShape(env, packets[..n]);
      x := PacketKeepsShape(env, Reached(env, packets[..n]), packets[n], y);
    }
  }

  /**
    After any packets a server that has keys has appended nothing but JSON, and its MAC keys are over
    the first two messages of its transcript, whatever those are.
  */
  lemma KeysAreOverTranscript(env: Env, packets: seq<Packet>)
    requires Usable(env) && AllDecoded(packets)
    ensures var st := Reached(env, packets).st; st.clientFinKey.Some? ==> DecodedKeyed(env.c, st)
  {
    hide Decoded, Reached, HashesHaveFixedSize, IsMessage, RefusedHello, RefusedExchange, AcceptedHello, AcceptedExchange, KeysOver,
         Laid, Deserialize;
    var x := TranscriptShape(env, packets);
    KeysOverLength(env.c, Reached(env, packets).st);
  }

  lemma KeysOverLength(c: Suite, st: State)
    requires HashesHaveFixedSize(c)
    ensures KeysOver(c, st) ==> |st.transcript| >= 3
  {
  }
}
