/**
  What an accepted Finished message proves when the network may change, drop, replay or invent
  anything, and the server goes on after messages that it appended and refused. Collisions are
  excluded only for the inputs that the two sides actually hashed.
*/
module HandshakeTampering {
  import opened Wrappers
  import opened ByteStrings
  import opened CanonicalJson
  import opened Messages
  import opened HandshakeMessages
  import opened Primitives
  import opened KeySchedule
  import opened Handshake
  import opened HandshakeRun

  /** Three messages are there, and the MAC keys are derived from the secret and the first two. */
  ghost predicate KeysOver(c: Suite, st: State)
    requires HashesHaveFixedSize(c)
  {
    |st.transcript| >= 3 && st.handshakeSecret.Some? &&
    st.clientFinKey == Some(ClientFinishedKey(c, st.handshakeSecret.value, Hash1(c, st))) &&
    st.serverFinKey == Some(ServerFinishedKey(c, st.handshakeSecret.value, Hash1(c, st)))
  }

  /** A client's state with keys: the three messages are objects. */
  ghost predicate Keyed(c: Suite, st: State)
    requires HashesHaveFixedSize(c)
  {
    KeysOver(c, st) && forall i | 0 <= i < 3 :: IsObjectText(st.transcript[i])
  }

  /** A server's state with keys: it may have appended messages that it then refused, but only JSON. */
  ghost predicate DecodedKeyed(c: Suite, st: State)
    requires HashesHaveFixedSize(c)
  {
    KeysOver(c, st) && AllDecode(st.transcript[..3])
  }

  function Hash1(c: Suite, st: State): (h: Bytes)
    requires HashesHaveFixedSize(c)
    ensures |h| == HASH_LEN
  {
    TranscriptHash(c, Take(st.transcript, 2))
  }

  // ---------------------------------------------------------------------------------------------
  // Both handlers that derive secrets leave a keyed state, whatever bytes they were given
  // ---------------------------------------------------------------------------------------------

  lemma AcceptedIsObject(data: Bytes)
    requires Deserialize(data).Ok? && Deserialize(data).value.Obj?
    ensures IsObjectText(data)
  {
  }

  lemma SerializedIsObject(message: Value)
    requires IsMessage(message) && message.Obj?
    ensures IsObjectText(Serialize(message).value)
  {
    ReadMessage(message);
    AcceptedIsObject(Serialize(message).value);
  }

  lemma SecretsMakeKeyed(c: Suite, st: State, secret: Bytes)
    requires HashesHaveFixedSize(c)
    requires |st.transcript| >= 3 && forall i | 0 <= i < 3 :: IsObjectText(st.transcript[i])
    ensures Keyed(c, WithSecrets(c, st, secret))
  {
    hide IsObjectText, ClientFinishedKey, ServerFinishedKey, TranscriptHash;
  }

  lemma AppendKeepsKeyed(c: Suite, st: State, msg: Bytes)
    requires HashesHaveFixedSize(c) && Keyed(c, st)
    ensures Keyed(c, Appended(st, msg))
  {
    hide IsObjectText, ClientFinishedKey, ServerFinishedKey, TranscriptHash;
    assert Take(st.transcript + [msg], 2) == Take(st.transcript, 2);
  }

  lemma ClientHelloIsObject(client: Client)
    ensures IsObjectText(ClientHelloBytes(client))
  {
    hide IsObjectText, Serialize;
    SerializedIsObject(ClientHello(client.random, client.identity, OfferedModes(client.mode)));
  }

  lemma AnsweredIsObject(c: Suite, server: Server, ch: Bytes)
    requires IsMessage(server.cert) && ReceiveClientHello(c, server, FRESH, ch).1.Ok?
    ensures IsObjectText(ch)
  {
    hide IsObjectText, Deserialize, ChooseMode, ServerHello, Serialize, Find;
    AcceptedIsObject(ch);
  }

  /** A client that accepts any ServerHello after sending its hello is keyed. */
  lemma ClientBecomesKeyed(c: Suite, client: Client, msg: Bytes, now: int)
    requires HashesHaveFixedSize(c)
    requires ReceiveServerHello(c, client, SendClientHello(client, FRESH).0, msg, now).1.Ok?
    ensures var r := ReceiveServerHello(c, client, SendClientHello(client, FRESH).0, msg, now);
            && Keyed(c, r.0)
            && r.0.transcript == [ClientHelloBytes(client), msg, r.1.value.0]
  {
    hide IsObjectText, CheckServerHello, KeyExchange, Deserialize, ClientHelloBytes, WithSecrets, IsMessage;
    var r := ReceiveServerHello(c, client, SendClientHello(client, FRESH).0, msg, now);
    DeserializedIsMessage(msg);
    var keys := CheckServerHello(c, client, Deserialize(msg).value, now).value;
    var (cke, secret) := KeyExchange(c, client, keys).value;
    var ch := ClientHelloBytes(client);
    ClientHelloIsObject(client);
    AcceptedIsObject(msg);
    KeyExchangeIsObject(c, client, keys);
    assert [] + [ch] == [ch] && [ch] + [msg] + [cke] == [ch, msg, cke];
    assert r.0 == WithSecrets(c, State([ch, msg, cke], None, None, None), secret);
    SecretsMakeKeyed(c, State([ch, msg, cke], None, None, None), secret);
    SecretsKeepTranscript(c, State([ch, msg, cke], None, None, None), secret);
  }

  lemma SecretsKeepTranscript(c: Suite, st: State, secret: Bytes)
    requires HashesHaveFixedSize(c)
    ensures WithSecrets(c, st, secret).transcript == st.transcript
    ensures WithSecrets(c, st, secret).serverFinKey.Some?
  {
  }

  lemma KeyExchangeIsObject(c: Suite, client: Client, keys: ServerKeys)
    requires KeyExchange(c, client, keys).Ok?
    ensures IsObjectText(KeyExchange(c, client, keys).value.0)
  {
    SerializedIsObject(ClientKeyExchange(Encapsulate(c, keys.ephPk, client.coinsEphemeral).value.0,
                                         Encapsulate(c, keys.ltPk, client.coinsLongterm).value.0));
    hide IsObjectText, Serialize, HandshakeSecret;
  }

  /** A server whose first ClientHello and first ClientKeyExchange were both accepted is keyed. */
  lemma ServerBecomesKeyed(c: Suite, server: Server, ch: Bytes, cke: Bytes)
    requires HashesHaveFixedSize(c) && IsMessage(server.cert)
    requires ReceiveClientHello(c, server, FRESH, ch).1.Ok?
    requires ReceiveClientKeyExchange(c, server, ReceiveClientHello(c, server, FRESH, ch).0, cke).1.Ok?
    ensures var r1 := ReceiveClientHello(c, server, FRESH, ch);
            var r2 := ReceiveClientKeyExchange(c, server, r1.0, cke);
            && Keyed(c, r2.0)
            && r2.0.transcript == [ch, r1.1.value, cke, r2.1.value]
  {
    hide ReceiveClientHello, IsObjectText, Deserialize, Serialize, DecapsulateBoth, ServerFinishedMac, WithSecrets, IsMessage;
    var r1 := ReceiveClientHello(c, server, FRESH, ch);
    var r2 := ReceiveClientKeyExchange(c, server, r1.0, cke);
    var sh, sf := r1.1.value, r2.1.value;
    AnsweredIsObject(c, server, ch);
    HelloIsObject(c, server, ch);
    HelloState(c, server, ch);
    DecapsulatedIsObject(c, server, cke);
    var secret := DecapsulateBoth(c, server, Deserialize(cke).value).value;
    var st := State([ch, sh, cke], None, None, None);
    assert [ch, sh] + [cke] == [ch, sh, cke];
    SecretsMakeKeyed(c, st, secret);
    SecretsKeepTranscript(c, st, secret);
    AppendKeepsKeyed(c, WithSecrets(c, st, secret), sf);
    assert [ch, sh, cke] + [sf] == [ch, sh, cke, sf];
    assert r2.0 == Appended(WithSecrets(c, st, secret), sf);
  }

  lemma HelloState(c: Suite, server: Server, ch: Bytes)
    requires IsMessage(server.cert) && ReceiveClientHello(c, server, FRESH, ch).1.Ok?
    ensures var r := ReceiveClientHello(c, server, FRESH, ch);
            r.0 == State([ch, r.1.value], None, None, None)
  {
    hide ChooseMode, Deserialize, Serialize, ServerHello;
    var sh := ReceiveClientHello(c, server, FRESH, ch).1.value;
    assert [] + [ch] + [sh] == [ch, sh];
  }

  lemma HelloIsObject(c: Suite, server: Server, ch: Bytes)
    requires IsMessage(server.cert) && ReceiveClientHello(c, server, FRESH, ch).1.Ok?
    ensures IsObjectText(ReceiveClientHello(c, server, FRESH, ch).1.value)
  {
    var mode := ChooseMode(server, ValueOr(Deserialize(ch).value.Get("modes"), Arr([]))).value;
    SerializedIsObject(ServerHello(c, server, mode));
    hide IsObjectText, Deserialize, Serialize, ChooseMode;
  }

  lemma DecapsulatedIsObject(c: Suite, server: Server, cke: Bytes)
    requires Deserialize(cke).Ok? && DecapsulateBoth(c, server, Deserialize(cke).value).Ok?
    ensures IsObjectText(cke)
  {
    AcceptedIsObject(cke);
  }

  /** Accepting or sending a Finished message only appends to the transcript. */
  lemma FinishedKeepsKeyed(c: Suite, server: Server, st: State, msg: Bytes, session: Session)
    requires HashesHaveFixedSize(c) && Keyed(c, st)
    ensures Keyed(c, ReceiveServerFinished(c, st, msg, session).0)
    ensures Keyed(c, SendClientFinished(c, st).0)
    ensures Keyed(c, ReceiveClientFinished(c, server, st, msg).0)
  {
    hide Keyed, Deserialize, Serialize, TranscriptHash, ClientFinishedMac, DecodeBytesField, SessionKeys,
         ModeOfTranscript;
    AppendKeepsKeyed(c, st, msg);
    if SendClientFinished(c, st).1.Ok? {
      AppendKeepsKeyed(c, st, SendClientFinished(c, st).1.value);
    }
  }

  // ---------------------------------------------------------------------------------------------
  // Accepted Finished messages
  // ---------------------------------------------------------------------------------------------

  /** The two sides' inputs to the hash and to the key derivations of the client's MAC do not collide. */
  ghost predicate NoClientMacCollision(c: Suite, a: State, b: State)
    requires HashesHaveFixedSize(c) && KeysOver(c, a) && KeysOver(c, b)
  {
    var x, y := Concat(Take(a.transcript, 3)), Concat(Take(b.transcript, 3));
    var s, t := Derive(c, a.handshakeSecret.value, ClientHandshakeTraffic, Hash1(c, a), HASH_LEN),
                Derive(c, b.handshakeSecret.value, ClientHandshakeTraffic, Hash1(c, b), HASH_LEN);
    NoHashCollision(c, x, y) &&
    NoMacCollision(c, a.clientFinKey.value, c.sha256(x), b.clientFinKey.value, c.sha256(y)) &&
    NoDeriveCollision(c, s, FinishedKey, [], t, FinishedKey, []) &&
    NoDeriveCollision(c, a.handshakeSecret.value, ClientHandshakeTraffic, Hash1(c, a),
                      b.handshakeSecret.value, ClientHandshakeTraffic, Hash1(c, b))
  }

  /** The same for the server's MAC, which covers the first two messages. */
  ghost predicate NoServerMacCollision(c: Suite, a: State, b: State)
    requires HashesHaveFixedSize(c) && KeysOver(c, a) && KeysOver(c, b)
  {
    var x, y := Concat(Take(a.transcript, 2)), Concat(Take(b.transcript, 2));
    var s, t := Derive(c, a.handshakeSecret.value, ServerHandshakeTraffic, Hash1(c, a), HASH_LEN),
                Derive(c, b.handshakeSecret.value, ServerHandshakeTraffic, Hash1(c, b), HASH_LEN);
    NoHashCollision(c, x, y) &&
    NoMacCollision(c, a.serverFinKey.value, c.sha256(x), b.serverFinKey.value, c.sha256(y)) &&
    NoDeriveCollision(c, s, FinishedKey, [], t, FinishedKey, []) &&
    NoDeriveCollision(c, a.handshakeSecret.value, ServerHandshakeTraffic, Hash1(c, a),
                      b.handshakeSecret.value, ServerHandshakeTraffic, Hash1(c, b))
  }

  /** The message carries this MAC, in whatever JSON text. */
  predicate CarriesMac(msg: Bytes, mac: Bytes) {
    Deserialize(msg).Ok? && DecodeBytesField(Deserialize(msg).value, "mac") == Ok(mac)
  }

  /** A ServerFinished is accepted, and appended, exactly when it carries the MAC; otherwise nothing changes. */
  lemma ServerFinishedIff(c: Suite, st: State, msg: Bytes, session: Session)
    requires HashesHaveFixedSize(c)
    ensures var r := ReceiveServerFinished(c, st, msg, session);
            if st.serverFinKey.Some? && st.handshakeSecret.Some? &&
               CarriesMac(msg, c.hmac(st.serverFinKey.value, c.sha256(Concat(Take(st.transcript, 2)))))
            then
              r == (Appended(st, msg), Ok(session.(keys := Some(SessionKeys(c, st.handshakeSecret.value, c.sha256(Concat(st.transcript + [msg])))))))
            else r.0 == st && r.1.Raise?
  {
    hide Deserialize, DecodeBytesField, SessionKeys;
  }

  /** A ClientFinished likewise; what is appended can still be refused, when the mode cannot be read back. */
  lemma ClientFinishedIff(c: Suite, server: Server, st: State, msg: Bytes)
    requires HashesHaveFixedSize(c)
    ensures var r := ReceiveClientFinished(c, server, st, msg);
            if st.clientFinKey.Some? && st.handshakeSecret.Some? &&
               CarriesMac(msg, c.hmac(st.clientFinKey.value, c.sha256(Concat(Take(st.transcript, 3)))))
            then
              r.0 == Appended(st, msg) && (r.1.Ok? <==> ModeOfTranscript(st.transcript + [msg]).Ok?) &&
              (r.1.Ok? ==>
                 r.1.value.sessionId == Str(server.sessionId) && r.1.value.handshakeMode == ModeOfTranscript(st.transcript + [msg]).value &&
                 r.1.value.keys == Some(SessionKeys(c, st.handshakeSecret.value, c.sha256(Concat(Take(st.transcript + [msg], 4))))))
            else r.0 == st && r.1.Raise?
  {
    hide Deserialize, DecodeBytesField, SessionKeys, ModeOfTranscript;
  }

  /**
    A client proceeds from a ServerHello exactly when it accepts keys of the right sizes from it and it
    carries a session id; only text that is no JSON leaves no trace in its transcript.
  */
  lemma ServerHelloIff(c: Suite, client: Client, st: State, msg: Bytes, now: int)
    requires HashesHaveFixedSize(c)
    ensures Deserialize(msg).Ok? ==> IsMessage(Deserialize(msg).value)
    ensures var r := ReceiveServerHello(c, client, st, msg, now);
            (Deserialize(msg).Raise? ==> r.0 == st && r.1.Raise?) &&
            (Deserialize(msg).Ok? ==>
               var sh := Deserialize(msg).value;
               st.transcript + [msg] <= r.0.transcript &&
               (r.1.Ok? <==> exists keys :: CheckServerHello(c, client, sh, now) == Ok(keys) && KeyExchange(c, client, keys).Ok? &&
                                            sh.Get("session_id").Some?) &&
               (r.1.Ok? ==>
                  r.0.transcript == st.transcript + [msg] + [r.1.value.0] && r.1.value.1.sessionId == sh.Get("session_id").value &&
                  r.1.value.1.peerIdentity == client.identity && r.1.value.1.keys.None?))
  {
    hide Deserialize, CheckServerHello, KeyExchange, IsMessage, ClientFinishedKey, ServerFinishedKey, TranscriptHash, Find;
    if Deserialize(msg).Ok? {
      DeserializedIsMessage(msg);
    }
  }

  /** The two sides saw the same first n messages: the same concatenation, decoding to the same values. */
  ghost predicate SameMessages(a: State, b: State, n: nat) {
    |a.transcript| >= n && |b.transcript| >= n &&
    Concat(a.transcript[..n]) == Concat(b.transcript[..n]) &&
    forall i | 0 <= i < n :: Deserialize(a.transcript[i]) == Deserialize(b.transcript[i])
  }

  /** When one side's messages are objects, the same concatenation makes the other side's the same objects. */
  lemma SameConcatSameMessages(a: State, b: State, n: nat)
    requires n <= 3 && |a.transcript| >= 3 && |b.transcript| >= 3
    requires AllDecode(b.transcript[..3]) && forall i | 0 <= i < 3 :: IsObjectText(a.transcript[i])
    requires Concat(a.transcript[..n]) == Concat(b.transcript[..n])
    ensures SameMessages(a, b, n) && SameMessages(b, a, n)
    ensures forall i | 0 <= i < n :: IsObjectText(b.transcript[i])
  {
    hide IsObjectText, Deserialize, Concat;
    var x, y := a.transcript[..n], b.transcript[..n];
    forall i | 0 <= i < n ensures Deserialize(y[i]).Ok? {
      assert y[i] == b.transcript[..3][i];
    }
    TranscriptDeterminesMessages(x, y);
    forall i | 0 <= i < n ensures Deserialize(a.transcript[i]) == Deserialize(b.transcript[i]) && IsObjectText(b.transcript[i]) {
      assert x[i] == a.transcript[i] && y[i] == b.transcript[i];
    }
  }

  /**
    A server that accepts a message carrying the MAC of some client's ClientFinished holds that
    client's handshake secret, and both saw the same ClientHello, ServerHello and ClientKeyExchange,
    whatever else the server had been sent and had appended.
  */
  lemma AcceptedClientFinished(c: Suite, server: Server, clientState: State, serverState: State, msg: Bytes)
    requires HashesHaveFixedSize(c) && Keyed(c, clientState) && DecodedKeyed(c, serverState)
    requires NoClientMacCollision(c, clientState, serverState)
    requires CarriesMac(msg, ClientFinishedMac(c, clientState))
    requires ReceiveClientFinished(c, server, serverState, msg).1.Ok?
    ensures clientState.handshakeSecret == serverState.handshakeSecret
    ensures SameMessages(clientState, serverState, 3) && Keyed(c, serverState)
  {
    hide Deserialize, DecodeBytesField, Derive, SessionKeys, ModeOfTranscript, IsObjectText, Concat;
    var hs, hs' := clientState.handshakeSecret.value, serverState.handshakeSecret.value;
    var h, h' := Hash1(c, clientState), Hash1(c, serverState);
    DeriveDetermines(c, Derive(c, hs, ClientHandshakeTraffic, h, HASH_LEN), FinishedKey, [],
                     Derive(c, hs', ClientHandshakeTraffic, h', HASH_LEN), FinishedKey, []);
    DeriveDetermines(c, hs, ClientHandshakeTraffic, h, hs', ClientHandshakeTraffic, h');
    assert Take(clientState.transcript, 3) == clientState.transcript[..3];
    assert Take(serverState.transcript, 3) == serverState.transcript[..3];
    SameConcatSameMessages(clientState, serverState, 3);
  }

  /**
    A client that accepts a message carrying the MAC of some server's ServerFinished holds that
    server's handshake secret, and both saw the same ClientHello and ServerHello.
  */
  lemma AcceptedServerFinished(c: Suite, clientState: State, serverState: State, msg: Bytes, session: Session)
    requires HashesHaveFixedSize(c) && Keyed(c, clientState) && DecodedKeyed(c, serverState)
    requires NoServerMacCollision(c, serverState, clientState)
    requires CarriesMac(msg, ServerFinishedMac(c, serverState))
    requires ReceiveServerFinished(c, clientState, msg, session).1.Ok?
    ensures clientState.handshakeSecret == serverState.handshakeSecret
    ensures SameMessages(clientState, serverState, 2)
  {
    hide Deserialize, DecodeBytesField, Derive, SessionKeys, IsObjectText, Concat;
    var hs, hs' := clientState.handshakeSecret.value, serverState.handshakeSecret.value;
    var h, h' := Hash1(c, clientState), Hash1(c, serverState);
    DeriveDetermines(c, Derive(c, hs', ServerHandshakeTraffic, h', HASH_LEN), FinishedKey, [],
                     Derive(c, hs, ServerHandshakeTraffic, h, HASH_LEN), FinishedKey, []);
    DeriveDetermines(c, hs', ServerHandshakeTraffic, h', hs, ServerHandshakeTraffic, h);
    assert Take(clientState.transcript, 2) == clientState.transcript[..2];
    assert Take(serverState.transcript, 2) == serverState.transcript[..2];
    SameConcatSameMessages(clientState, serverState, 2);
  }

  /**
    A ServerFinished, of this or of any other session, sent back to a server is not accepted as a
    ClientFinished: the two MAC keys come from different labels.
  */
  lemma ReflectedServerFinishedRejected(c: Suite, server: Server, from: State, to: State, msg: Bytes)
    requires HashesHaveFixedSize(c) && KeysOver(c, from) && KeysOver(c, to)
    requires CarriesMac(msg, ServerFinishedMac(c, from))
    requires NoMacCollision(c, from.serverFinKey.value, Hash1(c, from),
                            to.clientFinKey.value, TranscriptHash(c, Take(to.transcript, 3)))
    requires NoDeriveCollision(c, Derive(c, from.handshakeSecret.value, ServerHandshakeTraffic, Hash1(c, from), HASH_LEN),
                               FinishedKey, [],
                               Derive(c, to.handshakeSecret.value, ClientHandshakeTraffic, Hash1(c, to), HASH_LEN),
                               FinishedKey, [])
    requires NoDeriveCollision(c, from.handshakeSecret.value, ServerHandshakeTraffic, Hash1(c, from),
                               to.handshakeSecret.value, ClientHandshakeTraffic, Hash1(c, to))
    ensures ReceiveClientFinished(c, server, to, msg) == (to, Raise(ValueError))
  {
    hide Deserialize, DecodeBytesField, Derive, SessionKeys, ModeOfTranscript, IsObjectText, TranscriptHash;
    if from.serverFinKey == to.clientFinKey {
      var hs, hs' := from.handshakeSecret.value, to.handshakeSecret.value;
      DeriveDetermines(c, Derive(c, hs, ServerHandshakeTraffic, Hash1(c, from), HASH_LEN), FinishedKey, [],
                       Derive(c, hs', ClientHandshakeTraffic, Hash1(c, to), HASH_LEN), FinishedKey, []);
      DeriveDetermines(c, hs, ServerHandshakeTraffic, Hash1(c, from), hs', ClientHandshakeTraffic, Hash1(c, to));
    }
  }

  /** The last message of each transcript is the one whose bytes the other side did not authenticate. */
  predicate NoSessionCollision(c: Suite, a: State, b: State)
    requires HashesHaveFixedSize(c) && a.handshakeSecret.Some? && b.handshakeSecret.Some?
  {
    var h, h' := TranscriptHash(c, a.transcript), TranscriptHash(c, b.transcript);
    NoHashCollision(c, Concat(a.transcript), Concat(b.transcript)) &&
    NoDeriveCollision(c, MasterSecret(c, a.handshakeSecret.value), ClientApplicationTraffic, h,
                      MasterSecret(c, b.handshakeSecret.value), ClientApplicationTraffic, h')
  }

  /**
    The MACs cover CH, SH and CKE but not the bytes of ServerFinished, while the session keys are
    derived over all four. So after both acceptances the two sides hold the same session keys
    exactly when the client was handed the very bytes of ServerFinished that the server sent.
  */
  lemma SessionKeysAgreeIff(c: Suite, clientState: State, serverState: State)
    requires HashesHaveFixedSize(c)
    requires |clientState.transcript| == |serverState.transcript| == 4
    requires clientState.handshakeSecret.Some? && clientState.handshakeSecret == serverState.handshakeSecret
    requires SameMessages(clientState, serverState, 3)
    requires NoSessionCollision(c, clientState, serverState)
    ensures SessionKeys(c, clientState.handshakeSecret.value, TranscriptHash(c, clientState.transcript)) ==
            SessionKeys(c, serverState.handshakeSecret.value, TranscriptHash(c, serverState.transcript)) <==>
            clientState.transcript[3] == serverState.transcript[3]
  {
    hide Concat, Derive, MasterSecret;
    var a, b := clientState.transcript, serverState.transcript;
    var hs := clientState.handshakeSecret.value;
    ConcatSnoc(a[..3], a[3]);
    ConcatSnoc(b[..3], b[3]);
    assert a == a[..3] + [a[3]] && b == b[..3] + [b[3]];
    var h, h' := TranscriptHash(c, a), TranscriptHash(c, b);
    if SessionKeys(c, hs, h) == SessionKeys(c, hs, h') {
      DeriveDetermines(c, MasterSecret(c, hs), ClientApplicationTraffic, h,
                       MasterSecret(c, hs), ClientApplicationTraffic, h');
      SameSuffix(Concat(a[..3]), a[3], b[3]);
    }
  }

  lemma SameSuffix(prefix: Bytes, x: Bytes, y: Bytes)
    requires prefix + x == prefix + y
    ensures x == y
  {
    assert x == (prefix + x)[|prefix|..];
    assert y == (prefix + y)[|prefix|..];
  }

  /**
    The two directions never share a write key, and the two binding ids are never the same, when the
    derivations that differ only in their label do not collide.
  */
  lemma SessionKeysSeparated(c: Suite, secret: Bytes, hash3: Bytes)
    requires HashesHaveFixedSize(c) && |hash3| == HASH_LEN
    requires var master := MasterSecret(c, secret);
             NoDeriveCollision(c, master, ClientApplicationTraffic, hash3, master, ServerApplicationTraffic, hash3)
    requires var exporter := SessionKeys(c, secret, hash3).exporterSecret;
             NoDeriveCollision(c, exporter, OidcAccessToken, [], exporter, OidcRefreshToken, [])
    ensures var keys := SessionKeys(c, secret, hash3);
            keys.clientWriteKey != keys.serverWriteKey && keys.sessionBindingId != keys.refreshBindingId
  {
    hide HashesHaveFixedSize, MasterSecret, Derive, NoDeriveCollision, Base64Url.Encode;
    var keys := SessionKeys(c, secret, hash3);
    var master := MasterSecret(c, secret);
    if keys.clientWriteKey == keys.serverWriteKey {
      DeriveDetermines(c, master, ClientApplicationTraffic, hash3, master, ServerApplicationTraffic, hash3);
    }
    var access := Derive(c, keys.exporterSecret, OidcAccessToken, [], HASH_LEN);
    var refresh := Derive(c, keys.exporterSecret, OidcRefreshToken, [], HASH_LEN);
    if keys.sessionBindingId == keys.refreshBindingId {
      Base64Url.EncodeInjective(access, refresh);
      DeriveDetermines(c, keys.exporterSecret, OidcAccessToken, [], keys.exporterSecret, OidcRefreshToken, []);
    }
  }

  // ---------------------------------------------------------------------------------------------
  // The premises are met by every undisturbed run
  // ---------------------------------------------------------------------------------------------

  lemma HonestTextsAreObjects(c: Suite, client: Client, server: Server)
    requires ModesCompatible(c, client, server)
    ensures IsObjectText(ClientHelloBytes(client)) && IsObjectText(HonestServerHello(c, client, server)) &&
            IsObjectText(HonestKeyExchange(c, client, server))
  {
    hide IsObjectText, Serialize, ServerHello, NegotiatedMode, Correct, ClientHelloBytes;
    ClientHelloIsObject(client);
    SerializedIsObject(ServerHello(c, server, NegotiatedMode(client, server).value));
    SerializedIsObject(ClientKeyExchange(c.kemCiphertext(c.kemPublic(server.ephSk), client.coinsEphemeral),
                                         c.kemCiphertext(c.kemPublic(server.ltSk), client.coinsLongterm)));
  }

  lemma HonestIsKeyed(c: Suite, client: Client, server: Server)
    requires ModesCompatible(c, client, server) && HashesHaveFixedSize(c)
    ensures Keyed(c, FinishedState(c, client, server))
  {
    hide IsObjectText, ClientHelloBytes, HonestServerHello, HonestKeyExchange, HonestSecret, WithSecrets, Keyed, KemCorrect,
         SignaturesCorrect, AeadCorrect, HonestServerFinished, NegotiatedMode, HashesHaveFixedSize, Appended;
    HonestTextsAreObjects(c, client, server);
    var st := State([ClientHelloBytes(client), HonestServerHello(c, client, server), HonestKeyExchange(c, client, server)],
                    None, None, None);
    SecretsMakeKeyed(c, st, HonestSecret(c, client, server));
    AppendKeepsKeyed(c, KeyedState(c, client, server), HonestServerFinished(c, client, server));
  }

  /** Both sides of an undisturbed run, and the ClientFinished between them, meet every premise of agreement. */
  lemma HonestMeetsPremises(c: Suite, client: Client, server: Server)
    requires ModesCompatible(c, client, server) && HashesHaveFixedSize(c)
    ensures var st, cf := FinishedState(c, client, server), HonestClientFinished(c, client, server);
            && Keyed(c, st) && DecodedKeyed(c, st) && NoClientMacCollision(c, st, st) && CarriesMac(cf, ClientFinishedMac(c, st))
            && ReceiveClientFinished(c, server, st, cf).1.Ok?
  {
    hide ReceiveClientFinished, FinishedState, KeyedState, Deserialize, Serialize, DecodeBytesField, Correct, NegotiatedMode, Keyed,
         HashesHaveFixedSize, ClientFinishedMac, Derive, Hash1;
    HonestIsKeyed(c, client, server);
    KeyedHasSecrets(c, client, server);
    ServerAcceptsClientFinished(c, client, server);
    FinishedDecodes("ClientFinished", ClientFinishedMac(c, KeyedState(c, client, server)));
    KeyedHasEverything(c, FinishedState(c, client, server));
    KeyedDecodes(c, FinishedState(c, client, server));
    SameFinishedMac(c, client, server);
  }

  lemma SameFinishedMac(c: Suite, client: Client, server: Server)
    requires ModesCompatible(c, client, server) && HashesHaveFixedSize(c)
    ensures KeyedState(c, client, server).clientFinKey.Some? && FinishedState(c, client, server).clientFinKey.Some?
    ensures ClientFinishedMac(c, FinishedState(c, client, server)) == ClientFinishedMac(c, KeyedState(c, client, server))
  {
    hide KeyedState, Correct, NegotiatedMode, HashesHaveFixedSize, HonestServerFinished, TranscriptHash, FullTranscript;
    KeyedHasSecrets(c, client, server);
    FinishedTranscript(c, client, server);
    assert Take(KeyedState(c, client, server).transcript, 3) == KeyedState(c, client, server).transcript;
  }

  lemma KeyedHasEverything(c: Suite, st: State)
    requires HashesHaveFixedSize(c) && Keyed(c, st)
    ensures KeysOver(c, st) && st.handshakeSecret.Some? && st.clientFinKey.Some? && st.serverFinKey.Some?
  {
  }

  lemma KeyedDecodes(c: Suite, st: State)
    requires HashesHaveFixedSize(c) && Keyed(c, st)
    ensures DecodedKeyed(c, st)
  {
    hide Deserialize, ClientFinishedKey, ServerFinishedKey, TranscriptHash;
  }
}
