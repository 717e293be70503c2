/** Tokens over handshakes: an access token is as good as the handshake it was issued over. */
module BoundTokens {
  import opened Wrappers
  import opened ByteStrings
  import opened Primitives
  import opened KeySchedule
  import opened SessionBinding
  import opened TokenEndpoint
  import opened Userinfo
  import Base64Url
  import Handshake
  import HandshakeRun
  import TokenRuns
  import Utf8

  /** A session whose keys were derived from this handshake secret and this transcript hash. */
  predicate Completed(c: Suite, session: Handshake.Session, secret: Bytes, hash3: Bytes)
    requires HashesHaveFixedSize(c) && |hash3| == HASH_LEN
  {
    session.keys == Some(Handshake.SessionKeys(c, secret, hash3))
  }

  /** The exporter-derived id that access tokens are bound to. */
  function BindingId(session: Handshake.Session): string
    requires session.keys.Some?
  {
    session.keys.value.sessionBindingId
  }

  lemma EncodedIsNotEmpty(data: Bytes)
    requires data != []
    ensures Base64Url.Encode(data) != ""
  {
    if Base64Url.Encode(data) == Base64Url.Encode([]) {
      Base64Url.EncodeInjective(data, []);
    }
    assert Base64Url.Encode([]) == "";
  }

  /** A completed handshake populates both ids. */
  lemma CompletedIsBound(c: Suite, session: Handshake.Session, secret: Bytes, hash3: Bytes)
    requires HashesHaveFixedSize(c) && |hash3| == HASH_LEN && Completed(c, session, secret, hash3)
    ensures SessionBytes(OfHandshake(session).sessionBindingId) == Ok(Utf8.Encode(BindingId(session)))
    ensures SessionBytes(OfHandshake(session).refreshBindingId).Ok?
  {
    hide HashesHaveFixedSize, Base64Url.Encode, Derive, Utf8.Encode, ClientApplicationSecret, ServerApplicationSecret;
    var exporter := session.keys.value.exporterSecret;
    EncodedIsNotEmpty(Derive(c, exporter, OidcAccessToken, [], HASH_LEN));
    EncodedIsNotEmpty(Derive(c, exporter, OidcRefreshToken, [], HASH_LEN));
  }

  /**
    An access token issued over one completed handshake is accepted over another exactly in time, for
    matching issuer and audience, and when the two exporter-derived ids have one digest.
  */
  lemma AcceptedOverHandshakeIff(cfg: Config, subject: string, clientId: string, scope: string, issued: int, jti: string,
                                 endpoint: Endpoint, issuedOver: Handshake.Session, active: Handshake.Session,
                                 secret: Bytes, hash3: Bytes, secret': Bytes, hash3': Bytes, verb: string, path: string, now: int)
    requires HashesHaveFixedSize(cfg.c) && |hash3| == HASH_LEN && |hash3'| == HASH_LEN
    requires Completed(cfg.c, issuedOver, secret, hash3) && Completed(cfg.c, active, secret', hash3')
    requires SignaturesCorrect(cfg.c) && |cfg.issuerSk| == SIG_SECRET_KEY_SIZE && cfg.kid != ""
    requires endpoint.issuerPk == cfg.c.sigPublic(cfg.issuerSk)
    ensures var token := MakeAccessToken(cfg, subject, clientId, scope, issued, jti, OfHandshake(issuedOver), None);
            token.Ok? &&
            (HandleUserinfo(cfg.c, endpoint, token.value, Some(OfHandshake(active)), None, verb, path, now).Accepted? <==>
             now < issued + cfg.accessLifetime && Matches(endpoint.issuer, cfg.issuer) && Matches(endpoint.audience, clientId) &&
             cfg.c.sha256(Utf8.Encode(BindingId(issuedOver))) == cfg.c.sha256(Utf8.Encode(BindingId(active))))
  {
    hide HashesHaveFixedSize, Completed, OfHandshake, SessionBytes, MakeAccessToken, HandleUserinfo, Matches, SignaturesCorrect,
         Utf8.Encode, BindingId;
    CompletedIsBound(cfg.c, issuedOver, secret, hash3);
    CompletedIsBound(cfg.c, active, secret', hash3');
    CompletedHasKeys(cfg.c, issuedOver, secret, hash3);
    CompletedHasKeys(cfg.c, active, secret', hash3');
    TokenRuns.IssuedTokenAcceptedIff(cfg, subject, clientId, scope, issued, jti, OfHandshake(issuedOver), endpoint, OfHandshake(active), None,
                                     verb, path, now);
  }

  lemma CompletedHasKeys(c: Suite, session: Handshake.Session, secret: Bytes, hash3: Bytes)
    requires HashesHaveFixedSize(c) && |hash3| == HASH_LEN && Completed(c, session, secret, hash3)
    ensures session.keys.Some?
  {
  }

  /** "One digest" is "one exporter secret", when nothing on the way from the secrets collides. */
  lemma OneDigestIff(c: Suite, a: Handshake.Session, b: Handshake.Session, secret: Bytes, hash3: Bytes, secret': Bytes, hash3': Bytes)
    requires HashesHaveFixedSize(c) && |hash3| == HASH_LEN && |hash3'| == HASH_LEN
    requires Completed(c, a, secret, hash3) && Completed(c, b, secret', hash3')
    requires a.keys.Some? && b.keys.Some?
    requires NoHashCollision(c, Utf8.Encode(BindingId(a)), Utf8.Encode(BindingId(b)))
    requires NoDeriveCollision(c, a.keys.value.exporterSecret, OidcAccessToken, [], b.keys.value.exporterSecret, OidcAccessToken, [])
    requires NoDeriveCollision(c, secret, Exporter, hash3, secret', Exporter, hash3')
    ensures c.sha256(Utf8.Encode(BindingId(a))) == c.sha256(Utf8.Encode(BindingId(b))) <==> secret == secret' && hash3 == hash3'
  {
    hide HashesHaveFixedSize, Base64Url.Encode, Derive, NoDeriveCollision, Utf8.Encode, ClientApplicationSecret,
         ServerApplicationSecret;
    if c.sha256(Utf8.Encode(BindingId(a))) == c.sha256(Utf8.Encode(BindingId(b))) {
      var x, y := a.keys.value.exporterSecret, b.keys.value.exporterSecret;
      Utf8.Injective(BindingId(a), BindingId(b));
      Base64Url.EncodeInjective(Derive(c, x, OidcAccessToken, [], HASH_LEN), Derive(c, y, OidcAccessToken, [], HASH_LEN));
      DeriveDetermines(c, x, OidcAccessToken, [], y, OidcAccessToken, []);
      DeriveDetermines(c, secret, Exporter, hash3, secret', Exporter, hash3');
    }
  }

  /** The two sides of one undisturbed handshake are bound alike, so either side's view accepts the token. */
  lemma HandshakeSidesAreBoundAlike(c: Suite, client: Handshake.Client, server: Handshake.Server, now: int)
    requires HandshakeRun.Compatible(c, client, server, now)
    ensures var r := HandshakeRun.Undisturbed(c, client, server, now);
            r.Ok? && OfHandshake(r.value.0) == OfHandshake(r.value.1)
  {
    hide HandshakeRun.Undisturbed, HandshakeRun.Trusts;
    HandshakeRun.UndisturbedAgrees(c, client, server, now);
  }
}
