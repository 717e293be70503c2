/** The authorization and token endpoints over the code store and the refresh-token store. */
module TokenEndpoint {
  import opened Wrappers
  import opened ByteStrings
  import opened CanonicalJson
  import opened Primitives
  import opened SessionBinding
  import opened RefreshTokens
  import opened Userinfo
  import Base64Url

  // ---------------------------------------------------------------------------------------------
  // Authorization
  // ---------------------------------------------------------------------------------------------

  datatype CodeRecord = CodeRecord(
    clientId: string,
    redirectUri: string,
    scope: string,
    userId: string,
    codeChallenge: string,
    codeChallengeMethod: string,
    expiresAt: int)

  /** The code store and the refresh-token store. */
  datatype Provider = Provider(codes: map<string, CodeRecord>, tokens: Store)

  const NEW_PROVIDER := Provider(map[], map[])

  /** What the endpoints are made with; a client's entry is its list of redirect URIs. */
  datatype Config = Config(
    c: Suite,
    hash: Hash,
    registry: map<string, seq<string>>,
    codeLifetime: int,
    issuer: string,
    issuerSk: Bytes,
    kid: string,
    accessLifetime: int,
    refreshLifetime: int)

  datatype AuthorizeRequest = AuthorizeRequest(
    clientId: string,
    redirectUri: string,
    scope: string,
    state: string,
    userId: Option<string>,
    responseType: string,
    codeChallenge: string,
    codeChallengeMethod: string)

  datatype AuthorizeAnswer = Code(code: string, state: string) | AuthRequired | AuthorizeError(error: string)

  predicate IsRegistered(cfg: Config, clientId: string, redirectUri: string) {
    clientId in cfg.registry && redirectUri in cfg.registry[clientId]
  }

  /** The record of the code issued for a request that passes every check. */
  function RecordFor(cfg: Config, r: AuthorizeRequest, now: int): CodeRecord
    requires r.userId.Some?
  {
    CodeRecord(r.clientId, r.redirectUri, r.scope, r.userId.value, r.codeChallenge, r.codeChallengeMethod, now + cfg.codeLifetime)
  }

  function Authorize(cfg: Config, st: Provider, r: AuthorizeRequest, now: int, drawnCode: string): (Provider, AuthorizeAnswer) {
    if r.responseType != "code" then (st, AuthorizeError("unsupported_response_type"))
    else if r.clientId == "" || r.redirectUri == "" || r.scope == "" || r.state == "" then (st, AuthorizeError("invalid_request"))
    else if r.codeChallenge == "" || r.codeChallengeMethod != "S256" then (st, AuthorizeError("invalid_request"))
    else if r.clientId !in cfg.registry then (st, AuthorizeError("unauthorized_client"))
    else if !IsRegistered(cfg, r.clientId, r.redirectUri) then (st, AuthorizeError("invalid_request"))
    else if r.userId.None? then (st, AuthRequired)
    else (st.(codes := st.codes[drawnCode := RecordFor(cfg, r, now)]), Code(drawnCode, r.state))
  }

  // ---------------------------------------------------------------------------------------------
  // Tokens
  // ---------------------------------------------------------------------------------------------

  datatype Response =
    | Tokens(accessToken: string, refreshToken: string, scope: string)
    | TokenError(error: string)
    | TokenRaises(exception: Exception)

  /** What is random in one answer. */
  datatype Draws = Draws(jti: string, refreshToken: string, familyId: string)

  function Challenge(c: Suite, verifier: string): string
    requires IsAscii(verifier)
  {
    Base64Url.Encode(c.sha256(Ascii(verifier)))
  }

  /** Section 4.6 of RFC 7636, S256 only; a verifier that is not ASCII raises. */
  function VerifyPkce(c: Suite, expected: string, challengeMethod: string, verifier: string): Result<bool> {
    if challengeMethod != "S256" || verifier == "" then Ok(false)
    else if !IsAscii(verifier) then Raise(ValueError)
    else Ok(Challenge(c, verifier) == expected)
  }

  /** A proof binds the token to the client's key, no proof binds it to the session. */
  function Confirmation(c: Suite, session: BoundSession, proof: Option<Proof>): Result<Value> {
    if proof.Some? then
      var publicKey :- VerifyProof(c, session, proof, "POST", "/token");
      if publicKey.None? then Raise(ValueError) else AccessTokenPop(publicKey.value)
    else AccessTokenBinding(c, session)
  }

  /** Without a proof the claim is that of the session's id; with one, that of a key it proves for this endpoint, or there is none. */
  lemma ConfirmationIff(c: Suite, session: BoundSession, proof: Option<Proof>, cnf: Value)
    ensures Confirmation(c, session, proof) == Ok(cnf) <==>
            if proof.None?
            then SessionBytes(session.sessionBindingId).Ok? && cnf == ExporterConfirmation(c, SessionBytes(session.sessionBindingId).value)
            else Proves(c, session, proof, "POST", "/token", proof.value.publicKey) && AccessTokenPop(proof.value.publicKey) == Ok(cnf)
  {
    hide SessionBytes, ExporterConfirmation, VerifyProof, Proves, AccessTokenPop;
    if proof.Some? {
      ProvesIff(c, session, proof, "POST", "/token", proof.value.publicKey);
      var proved := VerifyProof(c, session, proof, "POST", "/token");
      if proved.Ok? && proved.value.Some? {
        ProvesItself(c, session, proof, "POST", "/token");
      }
    }
  }

  lemma ProvesItself(c: Suite, session: BoundSession, proof: Option<Proof>, verb: string, path: string)
    requires proof.Some? && VerifyProof(c, session, proof, verb, path).Ok? && VerifyProof(c, session, proof, verb, path).value.Some?
    ensures VerifyProof(c, session, proof, verb, path).value.value == proof.value.publicKey
  {
    hide ProofMessage;
  }

  lemma ConfirmationIsMessage(c: Suite, session: BoundSession, proof: Option<Proof>)
    ensures Confirmation(c, session, proof).Ok? ==> IsMessage(Confirmation(c, session, proof).value)
  {
    hide SessionBytes, VerifyProof, BindingHash;
    if Confirmation(c, session, proof).Ok? {
      var cnf := Confirmation(c, session, proof).value;
      DistinctByTag(cnf.fields);
      if proof.Some? {
        var jwk := cnf.fields[1].val;
        JwkIsMessage(VerifyProof(c, session, proof, "POST", "/token").value.value);
      }
    }
  }

  lemma JwkIsMessage(publicKey: Bytes)
    requires PublicKeyToJwk(publicKey).Ok?
    ensures IsMessage(PublicKeyToJwk(publicKey).value)
  {
    var fields := PublicKeyToJwk(publicKey).value.fields;
    assert |fields[3].key| == 1 && fields[0].key[0] == 'k' && fields[1].key[0] == 'a' && fields[2].key[0] == 'u';
  }

  function MakeAccessToken(cfg: Config, subject: string, clientId: string, scope: string, now: int, jti: string,
                           session: BoundSession, proof: Option<Proof>): Result<string>
  {
    var cnf :- Confirmation(cfg.c, session, proof);
    ConfirmationIsMessage(cfg.c, session, proof);
    AccessToken(cfg.c, AccessClaims(cfg.issuer, subject, clientId, scope, now, now + cfg.accessLifetime, jti), cfg.issuerSk, cfg.kid, cnf)
  }

  datatype CodeRequest = CodeRequest(clientId: string, redirectUri: string, code: string, verifier: string)

  /** The tokens for a valid code; whatever raises here is answered as an invalid request. */
  function IssueTokens(cfg: Config, st: Provider, record: CodeRecord, session: BoundSession, proof: Option<Proof>, now: int,
                       draws: Draws): (Provider, Response)
  {
    match MakeAccessToken(cfg, record.userId, record.clientId, record.scope, now, draws.jti, session, proof)
    case Raise(_) => (st, TokenError("invalid_request"))
    case Ok(accessToken) =>
      match RefreshBinding(cfg.c, session)
      case Raise(_) => (st, TokenError("invalid_request"))
      case Ok(meta) =>
        var (tokens, issued) := Issue(cfg.hash, st.tokens, record.userId, record.clientId, meta, now + cfg.refreshLifetime, now,
                                      draws.refreshToken, draws.familyId);
        match issued
        case Raise(_) => (st.(tokens := tokens), TokenError("invalid_request"))
        case Ok(refreshToken) => (st.(tokens := tokens), Tokens(accessToken, refreshToken, record.scope))
  }

  /** The code leaves the store before anything about it is checked. */
  function CodeGrant(cfg: Config, st: Provider, r: CodeRequest, session: Option<BoundSession>, proof: Option<Proof>, now: int,
                     draws: Draws): (Provider, Response)
  {
    if session.None? || r.clientId == "" || r.redirectUri == "" || r.verifier == "" then (st, TokenError("invalid_request"))
    else if r.code == "" || r.code !in st.codes then (st, TokenError("invalid_grant"))
    else
      var record := st.codes[r.code];
      var st1 := st.(codes := st.codes - {r.code});
      if now > record.expiresAt then (st1, TokenError("invalid_grant"))
      else if record.clientId != r.clientId || record.redirectUri != r.redirectUri then (st1, TokenError("invalid_grant"))
      else
        match VerifyPkce(cfg.c, record.codeChallenge, record.codeChallengeMethod, r.verifier)
        case Raise(e) => (st1, TokenRaises(e))
        case Ok(false) => (st1, TokenError("invalid_grant"))
        case Ok(true) => IssueTokens(cfg, st1, record, session.value, proof, now, draws)
  }

  /** The answer once the token has been rotated, or has not. */
  function RefreshAnswer(cfg: Config, rotated: Result<Option<string>>, subject: string, clientId: string, session: BoundSession,
                         proof: Option<Proof>, later: int, jti: string): Response
  {
    match rotated
    case Raise(e) => TokenRaises(e)
    case Ok(None) => TokenError("invalid_grant")
    case Ok(Some(refreshToken)) =>
      match Confirmation(cfg.c, session, proof)
      case Raise(_) => TokenError("invalid_request")
      case Ok(_) =>
        match MakeAccessToken(cfg, subject, clientId, "openid", later, jti, session, proof)
        case Raise(e) => TokenRaises(e)
        case Ok(accessToken) => Tokens(accessToken, refreshToken, "openid")
  }

  /**
    The token is rotated before the confirmation is made. `now` is the clock at the first checks and
    `later` at the rotation.
  */
  function RefreshGrant(cfg: Config, st: Provider, clientId: string, token: string, session: Option<BoundSession>,
                        proof: Option<Proof>, now: int, later: int, draws: Draws): (Provider, Response)
  {
    if session.None? || clientId == "" then (st, TokenError("invalid_request"))
    else
      match Lookup(cfg.hash, st.tokens, token)
      case None => (st, TokenError("invalid_grant"))
      case Some(record) =>
        if record.revoked then (st, TokenError("invalid_grant"))
        else if now >= record.expiresAt then (st.(tokens := Expire(cfg.hash, st.tokens, token)), TokenError("invalid_grant"))
        else if record.usedAt.Some? then
          (st.(tokens := Revoke(cfg.hash, st.tokens, token).0), TokenError("invalid_grant"))
        else if record.clientId != clientId then (st, TokenError("invalid_grant"))
        else if !VerifyRefreshBinding(cfg.c, record.bindingMeta, session.value) then (st, TokenError("invalid_grant"))
        else
          match RefreshBinding(cfg.c, session.value)
          case Raise(e) => (st, TokenRaises(e))
          case Ok(meta) =>
            var (tokens, rotated) := Rotate(cfg.hash, st.tokens, token, meta, later + cfg.refreshLifetime, later, draws.refreshToken);
            (st.(tokens := tokens), RefreshAnswer(cfg, rotated, record.subject, record.clientId, session.value, proof, later, draws.jti))
  }
}
