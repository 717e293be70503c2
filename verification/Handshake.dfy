/** The client and server handshake state machines. */
module Handshake {
  import opened Wrappers
  import opened ByteStrings
  import opened CanonicalJson
  import opened Messages
  import opened HandshakeMessages
  import opened Primitives
  import opened KeySchedule
  import Base64Url
  import Certificates

  // ---------------------------------------------------------------------------------------------
  // Configurations, states and sessions
  // ---------------------------------------------------------------------------------------------

  datatype PdkEntry = PdkEntry(identity: string, publicKey: Bytes)

  /** What a client is made with, and the random values it draws. */
  datatype Client = Client(
    identity: string,
    caPk: Bytes,
    pdkStore: Option<map<string, PdkEntry>>,
    mode: string,
    random: string,
    coinsEphemeral: Bytes,
    coinsLongterm: Bytes)

  /** What a server connection is made with (an absent key id is ""), and its random values. */
  datatype Server = Server(
    ltSk: Bytes,
    cert: Value,
    pdkKeyId: string,
    sessionId: string,
    ephSk: Bytes)

  /** The fields that the handlers of either side update. */
  datatype State = State(
    transcript: seq<Bytes>,
    handshakeSecret: Option<Bytes>,
    clientFinKey: Option<Bytes>,
    serverFinKey: Option<Bytes>)

  const FRESH := State([], None, None, None)

  datatype Keys = Keys(
    clientAppSecret: Bytes,
    serverAppSecret: Bytes,
    clientWriteKey: Bytes,
    clientWriteIv: Bytes,
    serverWriteKey: Bytes,
    serverWriteIv: Bytes,
    exporterSecret: Bytes,
    sessionBindingId: string,
    refreshBindingId: string)

  datatype Session = Session(
    sessionId: Value,
    peerIdentity: string,
    handshakeMode: Value,
    trustedKeyId: Value,
    keys: Option<Keys>)

  function Take<T>(s: seq<T>, n: nat): seq<T> {
    if |s| <= n then s else s[..n]
  }

  /** `message[field]` as bytes, after JSON has turned bytes into text. */
  function DecodeBytesField(message: Value, field: string): Result<Bytes> {
    if !message.Obj? then Raise(AttributeError)
    else
      match message.Get(field)
      case Some(Str(s)) => Base64Url.Decode(s)
      case _ => Raise(TypeError)
  }

  // ---------------------------------------------------------------------------------------------
  // Client
  // ---------------------------------------------------------------------------------------------

  function OfferedModes(mode: string): seq<string> {
    if mode == "auto" then ["baseline", "pdk"] else [mode]
  }

  function ClientHelloBytes(client: Client): Bytes {
    Serialize(ClientHello(client.random, client.identity, OfferedModes(client.mode))).value
  }

  function SendClientHello(client: Client, st: State): (State, Bytes) {
    (st.(transcript := st.transcript + [ClientHelloBytes(client)]), ClientHelloBytes(client))
  }

  /** Python truth of a decoded value. */
  function Truthy(v: Value): bool {
    match v
    case Null => false
    case Bool(b) => b
    case Int(i) => i != 0
    case Str(s) => s != ""
    case Bin(b) => b != []
    case Arr(items) => items != []
    case Obj(fields) => fields != []
  }

  /** The entry is the one and only entry of the identity. */
  predicate OnlyKeyOf(store: map<string, PdkEntry>, identity: string, keyId: string)
    requires keyId in store
  {
    store[keyId].identity == identity && forall k | k in store && store[k].identity == identity :: k == keyId
  }

  /** The trusted key for an identity, by key id when one is named, else by the identity alone. */
  function ResolveIdentity(store: map<string, PdkEntry>, identity: string, keyId: Value): Result<Bytes> {
    if Truthy(keyId) then
      if !keyId.Str? then Raise(if keyId.Arr? || keyId.Obj? then TypeError else KeyError)
      else if keyId.s !in store then Raise(KeyError)
      else if store[keyId.s].identity != identity then Raise(ValueError)
      else Ok(store[keyId.s].publicKey)
    else
      if !exists k | k in store :: OnlyKeyOf(store, identity, k) then Raise(ValueError)
      else
        var k :| k in store && OnlyKeyOf(store, identity, k);
        Ok(store[k].publicKey)
  }

  datatype ServerKeys = ServerKeys(ephPk: Bytes, ltPk: Bytes, mode: Value, trustedKeyId: Value)

  /** The checks a client makes on a decoded ServerHello before it encapsulates. */
  function CheckServerHello(c: Suite, client: Client, sh: Value, now: int): (r: Result<ServerKeys>)
    requires IsMessage(sh)
    ensures r.Ok? ==> sh.Obj? && sh.Get("mode") == Some(r.value.mode)
  {
    if !sh.Obj? then Raise(AttributeError)
    else if sh.Get("version") != Some(Str(VERSION)) then Raise(ValueError)
    else
      var ephPk :- DecodeBytesField(sh, "eph_pk");
      if sh.Get("mode") == Some(Str("baseline")) then
        if client.caPk == [] then Raise(ValueError)
        else
          GetIsMessage(sh, "cert");
          var ltPk :- Certificates.Validate(c, ValueOr(sh.Get("cert"), Null), client.caPk, client.identity, now);
          Ok(ServerKeys(ephPk, ltPk, Str("baseline"), Null))
      else if sh.Get("mode") == Some(Str("pdk")) then
        if client.pdkStore.None? then Raise(ValueError)
        else
          var keyId := ValueOr(sh.Get("key_id"), Null);
          var ltPk :- ResolveIdentity(client.pdkStore.value, client.identity, keyId);
          Ok(ServerKeys(ephPk, ltPk, Str("pdk"), keyId))
      else Raise(ValueError)
  }

  function ValueOr(v: Option<Value>, default: Value): Value {
    if v.Some? then v.value else default
  }

  lemma GetIsMessage(message: Value, key: string)
    requires IsMessage(message) && message.Obj?
    ensures IsMessage(ValueOr(message.Get(key), Null))
  {
    if message.Get(key).Some? {
      var i := FindSome(message.fields, key);
    }
  }

  /** The store names this key for the identity: under this key id, or when none is named, as the identity's only key. */
  predicate StoreNames(store: map<string, PdkEntry>, identity: string, keyId: Value, publicKey: Bytes) {
    exists k | k in store ::
      store[k] == PdkEntry(identity, publicKey) &&
      if Truthy(keyId) then keyId == Str(k) else forall j | j in store && store[j].identity == identity :: j == k
  }

  /** A pre-distributed key is resolved exactly when the store names it. */
  lemma ResolvesIff(store: map<string, PdkEntry>, identity: string, keyId: Value, publicKey: Bytes)
    ensures ResolveIdentity(store, identity, keyId) == Ok(publicKey) <==> StoreNames(store, identity, keyId, publicKey)
  {
    if Truthy(keyId) {
      assert keyId.Str? && keyId.s in store ==> store[keyId.s] == PdkEntry(store[keyId.s].identity, store[keyId.s].publicKey);
    } else if exists k | k in store :: OnlyKeyOf(store, identity, k) {
      var k :| k in store && OnlyKeyOf(store, identity, k);
      assert store[k] == PdkEntry(identity, store[k].publicKey);
    }
  }

  /**
    A client accepts a ServerHello with these keys exactly when the ServerHello carries the ephemeral
    key and the long-term key is vouched for: in baseline mode by a certificate that its CA signed for
    the server's identity and that is valid now, in pdk mode by its own store.
  */
  lemma AcceptsHelloIff(c: Suite, client: Client, sh: Value, now: int, keys: ServerKeys)
    requires IsMessage(sh)
    ensures sh.Obj? ==> IsMessage(ValueOr(sh.Get("cert"), Null))
    ensures CheckServerHello(c, client, sh, now) == Ok(keys) <==>
            sh.Obj? && sh.Get("version") == Some(Str(VERSION)) && DecodeBytesField(sh, "eph_pk") == Ok(keys.ephPk) &&
            sh.Get("mode") == Some(keys.mode) &&
            ((keys.mode == Str("baseline") && keys.trustedKeyId == Null && client.caPk != [] &&
              Certificates.Vouches(c, ValueOr(sh.Get("cert"), Null), client.caPk, client.identity, now, keys.ltPk)) ||
             (keys.mode == Str("pdk") && keys.trustedKeyId == ValueOr(sh.Get("key_id"), Null) && client.pdkStore.Some? &&
              StoreNames(client.pdkStore.value, client.identity, keys.trustedKeyId, keys.ltPk)))
  {
    hide Certificates.Validate, Certificates.Vouches, ResolveIdentity, StoreNames, Find, IsMessage, DecodeBytesField;
    if sh.Obj? {
      GetIsMessage(sh, "cert");
      Certificates.ValidatesIff(c, ValueOr(sh.Get("cert"), Null), client.caPk, client.identity, now, keys.ltPk);
      if client.pdkStore.Some? {
        ResolvesIff(client.pdkStore.value, client.identity, ValueOr(sh.Get("key_id"), Null), keys.ltPk);
      }
    }
    assert "baseline"[0] != "pdk"[0];
  }

  /** The state with the secrets of a handshake secret, derived over the first two messages. */
  function WithSecrets(c: Suite, st: State, handshakeSecret: Bytes): State
    requires HashesHaveFixedSize(c)
  {
    var hash1 := TranscriptHash(c, Take(st.transcript, 2));
    st.(handshakeSecret := Some(handshakeSecret),
        clientFinKey := Some(ClientFinishedKey(c, handshakeSecret, hash1)),
        serverFinKey := Some(ServerFinishedKey(c, handshakeSecret, hash1)))
  }

  /** Encapsulate to both server keys: the ClientKeyExchange bytes and the handshake secret. */
  function KeyExchange(c: Suite, client: Client, keys: ServerKeys): Result<(Bytes, Bytes)> {
    var ephemeral :- Encapsulate(c, keys.ephPk, client.coinsEphemeral);
    var longterm :- Encapsulate(c, keys.ltPk, client.coinsLongterm);
    var secret :- HandshakeSecret(c, [ephemeral.1, longterm.1]);
    Ok((Serialize(ClientKeyExchange(ephemeral.0, longterm.0)).value, secret))
  }

  /** The handler appends the message before it checks it, and its reply before the session id. */
  function ReceiveServerHello(c: Suite, client: Client, st: State, msg: Bytes, now: int)
    : (r: (State, Result<(Bytes, Session)>))
    requires HashesHaveFixedSize(c)
  {
    match Deserialize(msg)
    case Raise(e) => (st, Raise(e))
    case Ok(sh) =>
      DeserializedIsMessage(msg);
      var st1 := st.(transcript := st.transcript + [msg]);
      match CheckServerHello(c, client, sh, now)
      case Raise(e) => (st1, Raise(e))
      case Ok(keys) =>
        match KeyExchange(c, client, keys)
        case Raise(e) => (st1, Raise(e))
        case Ok((cke, secret)) =>
          var st2 := WithSecrets(c, st1.(transcript := st1.transcript + [cke]), secret);
          if sh.Get("session_id").None? then (st2, Raise(KeyError))
          else (st2, Ok((cke, Session(sh.Get("session_id").value, client.identity, keys.mode, keys.trustedKeyId, None))))
  }

  /** The keys of a session: write keys, IVs, exporter secret and binding ids. */
  function SessionKeys(c: Suite, handshakeSecret: Bytes, hash3: Bytes): Keys
    requires HashesHaveFixedSize(c) && |hash3| == HASH_LEN
  {
    var client := ClientApplicationSecret(c, handshakeSecret, hash3);
    var server := ServerApplicationSecret(c, handshakeSecret, hash3);
    var exporter := Derive(c, handshakeSecret, Exporter, hash3, HASH_LEN);
    Keys(client, server, client, Derive(c, client, Iv, [], 12), server, Derive(c, server, Iv, [], 12), exporter,
         Base64Url.Encode(Derive(c, exporter, OidcAccessToken, [], HASH_LEN)),
         Base64Url.Encode(Derive(c, exporter, OidcRefreshToken, [], HASH_LEN)))
  }

  /** Which secret each key, IV, exporter secret and binding id of a session comes from, and how. */
  lemma SessionKeysAre(c: Suite, handshakeSecret: Bytes, hash3: Bytes)
    requires HashesHaveFixedSize(c) && |hash3| == HASH_LEN
    ensures var k := SessionKeys(c, handshakeSecret, hash3);
            var master := c.hmac(Zeros(32), Labelled(c, handshakeSecret, "derived", [], 32));
            k.clientAppSecret == k.clientWriteKey == Labelled(c, master, "c ap traffic", hash3, 32) &&
            k.serverAppSecret == k.serverWriteKey == Labelled(c, master, "s ap traffic", hash3, 32) &&
            k.clientWriteIv == Labelled(c, k.clientWriteKey, "iv", [], 12) &&
            k.serverWriteIv == Labelled(c, k.serverWriteKey, "iv", [], 12) &&
            k.exporterSecret == Labelled(c, handshakeSecret, "exporter", hash3, 32) &&
            k.sessionBindingId == Base64Url.Encode(Labelled(c, k.exporterSecret, "oidc-access-token", [], 32)) &&
            k.refreshBindingId == Base64Url.Encode(Labelled(c, k.exporterSecret, "oidc-refresh-token", [], 32))
  {
    hide Derive, Labelled, Base64Url.Encode, ClientApplicationSecret, ServerApplicationSecret;
    ApplicationSecretsAre(c, handshakeSecret, hash3);
    var exporter := Derive(c, handshakeSecret, Exporter, hash3, 32);
    DeriveIs(c, ClientApplicationSecret(c, handshakeSecret, hash3), Iv, [], 12);
    DeriveIs(c, ServerApplicationSecret(c, handshakeSecret, hash3), Iv, [], 12);
    DeriveIs(c, handshakeSecret, Exporter, hash3, 32);
    DeriveIs(c, exporter, OidcAccessToken, [], 32);
    DeriveIs(c, exporter, OidcRefreshToken, [], 32);
  }

  /** The MAC is checked first, and the message appended after. */
  function ReceiveServerFinished(c: Suite, st: State, msg: Bytes, session: Session): (r: (State, Result<Session>))
    requires HashesHaveFixedSize(c)
  {
    match Deserialize(msg)
    case Raise(e) => (st, Raise(e))
    case Ok(sf) =>
      match DecodeBytesField(sf, "mac")
      case Raise(e) => (st, Raise(e))
      case Ok(mac) =>
        if st.serverFinKey.None? || st.handshakeSecret.None? then (st, Raise(TypeError))
        else if mac != c.hmac(st.serverFinKey.value, TranscriptHash(c, Take(st.transcript, 2))) then (st, Raise(ValueError))
        else
          var st1 := st.(transcript := st.transcript + [msg]);
          (st1, Ok(session.(keys := Some(SessionKeys(c, st.handshakeSecret.value, TranscriptHash(c, st1.transcript))))))
  }

  function ClientFinishedMac(c: Suite, st: State): Bytes
    requires HashesHaveFixedSize(c) && st.clientFinKey.Some?
  {
    c.hmac(st.clientFinKey.value, TranscriptHash(c, Take(st.transcript, 3)))
  }

  function SendClientFinished(c: Suite, st: State): (State, Result<Bytes>)
    requires HashesHaveFixedSize(c)
  {
    if st.clientFinKey.None? then (st, Raise(TypeError))
    else
      var msg := Serialize(Finished("ClientFinished", ClientFinishedMac(c, st))).value;
      (st.(transcript := st.transcript + [msg]), Ok(msg))
  }

  // ---------------------------------------------------------------------------------------------
  // Server
  // ---------------------------------------------------------------------------------------------

  predicate IsSubstring(part: string, s: string) {
    part <= s || (s != "" && IsSubstring(part, s[1..]))
  }

  /** Python's `part in modes`, for whatever value the modes decode to. */
  function ContainsMode(modes: Value, part: string): Result<bool> {
    match modes
    case Arr(items) => Ok(Str(part) in items)
    case Str(s) => Ok(IsSubstring(part, s))
    case Obj(fields) => Ok(Find(fields, part).Some?)
    case _ => Raise(TypeError)
  }

  /** The mode is pdk when the server has a key id and it is offered, else baseline likewise. */
  function ChooseMode(server: Server, modes: Value): Result<string> {
    var pdk :- if server.pdkKeyId != "" then ContainsMode(modes, "pdk") else Ok(false);
    if pdk then Ok("pdk")
    else
      var baseline :- if Truthy(server.cert) then ContainsMode(modes, "baseline") else Ok(false);
      if baseline then Ok("baseline") else Raise(ValueError)
  }

  /** The decoded `modes` offer a mode: as an element, a part of a text, or a key. */
  ghost predicate Offers(modes: Value, mode: string) {
    match modes
    case Arr(items) => exists i | 0 <= i < |items| :: items[i] == Str(mode)
    case Str(s) => exists before, after :: s == before + mode + after
    case Obj(fields) => exists i | 0 <= i < |fields| :: fields[i].key == mode
    case _ => false
  }

  lemma {:induction false} SubstringFound(part: string, s: string) returns (before: string, after: string)
    requires IsSubstring(part, s)
    ensures s == before + part + after
  {
    if part <= s {
      before, after := "", s[|part|..];
    } else {
      before, after := SubstringFound(part, s[1..]);
      assert s == [s[0]] + s[1..];
      before := [s[0]] + before;
    }
  }

  lemma {:induction false} SubstringThere(part: string, before: string, after: string)
    ensures IsSubstring(part, before + part + after)
  {
    var s := before + part + after;
    if before == "" {
      assert part <= s;
    } else {
      SubstringThere(part, before[1..], after);
      assert s[1..] == before[1..] + part + after;
    }
  }

  lemma ContainsIff(modes: Value, mode: string)
    ensures ContainsMode(modes, mode) == Ok(true) <==> Offers(modes, mode)
    ensures ContainsMode(modes, mode).Ok? <==> modes.Arr? || modes.Str? || modes.Obj?
  {
    hide IsSubstring;
    match modes
    case Str(s) =>
      if IsSubstring(mode, s) {
        var before, after := SubstringFound(mode, s);
      }
      forall before, after | s == before + mode + after ensures IsSubstring(mode, s) {
        SubstringThere(mode, before, after);
      }
    case Obj(fields) =>
      if Find(fields, mode).Some? {
        var i := FindSome(fields, mode);
      } else {
        KeyAbsent(fields, mode);
      }
    case _ =>
  }

  lemma {:induction false} KeyAbsent(fields: seq<Field>, key: string)
    requires Find(fields, key).None?
    ensures forall i | 0 <= i < |fields| :: fields[i].key != key
  {
    if fields != [] {
      KeyAbsent(fields[1..], key);
      assert forall i | 0 < i < |fields| :: fields[i] == fields[1..][i - 1];
    }
  }

  /** Whatever the `modes` of a ClientHello are: which mode is chosen, and when none is. */
  lemma ChoosesIff(server: Server, modes: Value)
    ensures var r := ChooseMode(server, modes);
            (r == Ok("pdk") <==> server.pdkKeyId != "" && Offers(modes, "pdk")) &&
            (r == Ok("baseline") <==> Truthy(server.cert) && Offers(modes, "baseline") && !(server.pdkKeyId != "" && Offers(modes, "pdk"))) &&
            (r.Ok? ==> r.value == "pdk" || r.value == "baseline")
  {
    hide ContainsMode, Offers;
    ContainsIff(modes, "pdk");
    ContainsIff(modes, "baseline");
    OffersSomething(modes);
    assert "baseline"[0] != "pdk"[0];
  }

  lemma OffersSomething(modes: Value)
    ensures Offers(modes, "pdk") || Offers(modes, "baseline") ==> modes.Arr? || modes.Str? || modes.Obj?
  {
  }

  function ServerHello(c: Suite, server: Server, mode: string): (message: Value)
    requires IsMessage(server.cert)
    ensures IsMessage(message) && message.Obj?
  {
    Obj([Field("type", Str("ServerHello")),
         Field("version", Str(VERSION)),
         Field("session_id", Str(server.sessionId)),
         Field("mode", Str(mode)),
         Field("eph_pk", Bin(c.kemPublic(server.ephSk))),
         if mode == "baseline" then Field("cert", server.cert) else Field("key_id", Str(server.pdkKeyId))])
  }

  /** The handler appends the message before it has agreed to a mode. */
  function ReceiveClientHello(c: Suite, server: Server, st: State, msg: Bytes): (r: (State, Result<Bytes>))
    requires IsMessage(server.cert)
  {
    match Deserialize(msg)
    case Raise(e) => (st, Raise(e))
    case Ok(ch) =>
      var st1 := st.(transcript := st.transcript + [msg]);
      if !ch.Obj? then (st1, Raise(AttributeError))
      else
        match ChooseMode(server, ValueOr(ch.Get("modes"), Arr([])))
        case Raise(e) => (st1, Raise(e))
        case Ok(mode) =>
          var sh := Serialize(ServerHello(c, server, mode)).value;
          (st1.(transcript := st1.transcript + [sh]), Ok(sh))
  }

  function DecapsulateBoth(c: Suite, server: Server, cke: Value): Result<Bytes> {
    var ctEphemeral :- DecodeBytesField(cke, "ct_ephemeral");
    var ctLongterm :- DecodeBytesField(cke, "ct_longterm");
    var ssEphemeral :- Decapsulate(c, server.ephSk, ctEphemeral);
    var ssLongterm :- Decapsulate(c, server.ltSk, ctLongterm);
    HandshakeSecret(c, [ssEphemeral, ssLongterm])
  }

  function ServerFinishedMac(c: Suite, st: State): Bytes
    requires HashesHaveFixedSize(c) && st.serverFinKey.Some?
  {
    c.hmac(st.serverFinKey.value, TranscriptHash(c, Take(st.transcript, 2)))
  }

  function ReceiveClientKeyExchange(c: Suite, server: Server, st: State, msg: Bytes): (r: (State, Result<Bytes>))
    requires HashesHaveFixedSize(c)
  {
    match Deserialize(msg)
    case Raise(e) => (st, Raise(e))
    case Ok(cke) =>
      var st1 := st.(transcript := st.transcript + [msg]);
      match DecapsulateBoth(c, server, cke)
      case Raise(e) => (st1, Raise(e))
      case Ok(secret) =>
        var st2 := WithSecrets(c, st1, secret);
        var sf := Serialize(Finished("ServerFinished", ServerFinishedMac(c, st2))).value;
        (st2.(transcript := st2.transcript + [sf]), Ok(sf))
  }

  /** The mode in the server's own ServerHello, which is the second message of its transcript. */
  function ModeOfTranscript(transcript: seq<Bytes>): Result<Value> {
    if |transcript| < 2 then Raise(KeyError)
    else
      var sh :- Deserialize(transcript[1]);
      if !sh.Obj? then Raise(TypeError)
      else if sh.Get("mode").None? then Raise(KeyError)
      else Ok(sh.Get("mode").value)
  }

  /** The MAC is checked first, and the message appended after. */
  function ReceiveClientFinished(c: Suite, server: Server, st: State, msg: Bytes): (r: (State, Result<Session>))
    requires HashesHaveFixedSize(c)
  {
    match Deserialize(msg)
    case Raise(e) => (st, Raise(e))
    case Ok(cf) =>
      match DecodeBytesField(cf, "mac")
      case Raise(e) => (st, Raise(e))
      case Ok(mac) =>
        if st.clientFinKey.None? || st.handshakeSecret.None? then (st, Raise(TypeError))
        else if c.hmac(st.clientFinKey.value, TranscriptHash(c, Take(st.transcript, 3))) != mac then (st, Raise(ValueError))
        else
          var st1 := st.(transcript := st.transcript + [msg]);
          match ModeOfTranscript(st1.transcript)
          case Raise(e) => (st1, Raise(e))
          case Ok(mode) =>
            var keys := SessionKeys(c, st.handshakeSecret.value, TranscriptHash(c, Take(st1.transcript, 4)));
            (st1, Ok(Session(Str(server.sessionId), "client", mode,
                             if mode == Str("pdk") then (if server.pdkKeyId == "" then Null else Str(server.pdkKeyId)) else Null,
                             Some(keys))))
  }
}
