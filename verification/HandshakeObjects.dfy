/** The two handshake objects, whose handlers update the transcript and the secrets in place. */
module HandshakeObjects {
  import opened Wrappers
  import opened ByteStrings
  import opened CanonicalJson
  import opened Messages
  import opened HandshakeMessages
  import opened Primitives
  import opened KeySchedule
  import opened Handshake

  class ClientHandshake {
    const c: Suite
    const client: Client
    var transcript: seq<Bytes>
    var handshakeSecret: Option<Bytes>
    var clientFinKey: Option<Bytes>
    var serverFinKey: Option<Bytes>

    function Fields(): State
      reads this
    {
      State(transcript, handshakeSecret, clientFinKey, serverFinKey)
    }

    constructor (c: Suite, client: Client)
      ensures this.c == c && this.client == client
      ensures Fields() == FRESH
    {
      this.c := c;
      this.client := client;
      transcript := [];
      handshakeSecret := None;
      clientFinKey := None;
      serverFinKey := None;
    }

    method ClientHello() returns (msg: Bytes)
      modifies this
      ensures (Fields(), msg) == SendClientHello(client, old(Fields()))
    {
      msg := ClientHelloBytes(client);
      transcript := transcript + [msg];
    }

    method ProcessServerHello(msg: Bytes, now: int) returns (r: Result<(Bytes, Session)>)
      requires HashesHaveFixedSize(c)
      modifies this
      ensures (Fields(), r) == ReceiveServerHello(c, client, old(Fields()), msg, now)
    {
      var decoded := Deserialize(msg);
      if decoded.Raise? {
        return Raise(decoded.exception);
      }
      var sh := decoded.value;
      DeserializedIsMessage(msg);
      transcript := transcript + [msg];
      var checked := CheckServerHello(c, client, sh, now);
      if checked.Raise? {
        return Raise(checked.exception);
      }
      var exchanged := KeyExchange(c, client, checked.value);
      if exchanged.Raise? {
        return Raise(exchanged.exception);
      }
      var (cke, secret) := exchanged.value;
      transcript := transcript + [cke];
      handshakeSecret := Some(secret);
      var hash1 := TranscriptHash(c, Take(transcript, 2));
      clientFinKey := Some(ClientFinishedKey(c, secret, hash1));
      serverFinKey := Some(ServerFinishedKey(c, secret, hash1));
      var sessionId := sh.Get("session_id");
      if sessionId.None? {
        return Raise(KeyError);
      }
      r := Ok((cke, Session(sessionId.value, client.identity, checked.value.mode, checked.value.trustedKeyId, None)));
    }

    method ProcessServerFinished(msg: Bytes, session: Session) returns (r: Result<Session>)
      requires HashesHaveFixedSize(c)
      modifies this
      ensures (Fields(), r) == ReceiveServerFinished(c, old(Fields()), msg, session)
    {
      var hash1 := TranscriptHash(c, Take(transcript, 2));
      var decoded := Deserialize(msg);
      if decoded.Raise? {
        return Raise(decoded.exception);
      }
      var mac := DecodeBytesField(decoded.value, "mac");
      if mac.Raise? {
        return Raise(mac.exception);
      }
      if serverFinKey.None? || handshakeSecret.None? {
        return Raise(TypeError);
      }
      if mac.value != c.hmac(serverFinKey.value, hash1) {
        return Raise(ValueError);
      }
      transcript := transcript + [msg];
      var hash3 := TranscriptHash(c, transcript);
      r := Ok(session.(keys := Some(SessionKeys(c, handshakeSecret.value, hash3))));
    }

    method ClientFinished() returns (r: Result<Bytes>)
      requires HashesHaveFixedSize(c)
      modifies this
      ensures (Fields(), r) == SendClientFinished(c, old(Fields()))
    {
      if clientFinKey.None? {
        return Raise(TypeError);
      }
      var mac := c.hmac(clientFinKey.value, TranscriptHash(c, Take(transcript, 3)));
      var msg := Serialize(Finished("ClientFinished", mac)).value;
      transcript := transcript + [msg];
      r := Ok(msg);
    }
  }

  class ServerHandshake {
    const c: Suite
    const server: Server
    var transcript: seq<Bytes>
    var handshakeSecret: Option<Bytes>
    var clientFinKey: Option<Bytes>
    var serverFinKey: Option<Bytes>

    function Fields(): State
      reads this
    {
      State(transcript, handshakeSecret, clientFinKey, serverFinKey)
    }

    constructor (c: Suite, server: Server)
      ensures this.c == c && this.server == server
      ensures Fields() == FRESH
    {
      this.c := c;
      this.server := server;
      transcript := [];
      handshakeSecret := None;
      clientFinKey := None;
      serverFinKey := None;
    }

    method ProcessClientHello(msg: Bytes) returns (r: Result<Bytes>)
      requires IsMessage(server.cert)
      modifies this
      ensures (Fields(), r) == ReceiveClientHello(c, server, old(Fields()), msg)
    {
      var decoded := Deserialize(msg);
      if decoded.Raise? {
        return Raise(decoded.exception);
      }
      transcript := transcript + [msg];
      if !decoded.value.Obj? {
        return Raise(AttributeError);
      }
      var mode := ChooseMode(server, ValueOr(decoded.value.Get("modes"), Arr([])));
      if mode.Raise? {
        return Raise(mode.exception);
      }
      var sh := Serialize(ServerHello(c, server, mode.value)).value;
      transcript := transcript + [sh];
      r := Ok(sh);
    }

    method ProcessClientKeyExchange(msg: Bytes) returns (r: Result<Bytes>)
      requires HashesHaveFixedSize(c)
      modifies this
      ensures (Fields(), r) == ReceiveClientKeyExchange(c, server, old(Fields()), msg)
    {
      var decoded := Deserialize(msg);
      if decoded.Raise? {
        return Raise(decoded.exception);
      }
      transcript := transcript + [msg];
      var secret := DecapsulateBoth(c, server, decoded.value);
      if secret.Raise? {
        return Raise(secret.exception);
      }
      handshakeSecret := Some(secret.value);
      var hash1 := TranscriptHash(c, Take(transcript, 2));
      clientFinKey := Some(ClientFinishedKey(c, secret.value, hash1));
      serverFinKey := Some(ServerFinishedKey(c, secret.value, hash1));
      var sf := Serialize(Finished("ServerFinished", c.hmac(serverFinKey.value, hash1))).value;
      transcript := transcript + [sf];
      r := Ok(sf);
    }

    method VerifyClientFinished(msg: Bytes) returns (r: Result<Session>)
      requires HashesHaveFixedSize(c)
      modifies this
      ensures (Fields(), r) == ReceiveClientFinished(c, server, old(Fields()), msg)
    {
      var hash2 := TranscriptHash(c, Take(transcript, 3));
      var decoded := Deserialize(msg);
      if decoded.Raise? {
        return Raise(decoded.exception);
      }
      var mac := DecodeBytesField(decoded.value, "mac");
      if mac.Raise? {
        return Raise(mac.exception);
      }
      if clientFinKey.None? || handshakeSecret.None? {
        return Raise(TypeError);
      }
      if c.hmac(clientFinKey.value, hash2) != mac.value {
        return Raise(ValueError);
      }
      transcript := transcript + [msg];
      var mode := ModeOfTranscript(transcript);
      if mode.Raise? {
        return Raise(mode.exception);
      }
      var keys := SessionKeys(c, handshakeSecret.value, TranscriptHash(c, Take(transcript, 4)));
      var keyId := if server.pdkKeyId == "" then Null else Str(server.pdkKeyId);
      r := Ok(Session(Str(server.sessionId), "client", mode.value, if mode.value == Str("pdk") then keyId else Null, Some(keys)));
    }
  }
}
