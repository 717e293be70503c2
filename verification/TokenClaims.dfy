/** What a resource server reads from the tokens of a run: the user who was asked, and what was asked for. */
module TokenClaims {
  import opened Wrappers
  import opened CanonicalJson
  import opened Primitives
  import opened SessionBinding
  import opened RefreshTokens
  import opened TokenEndpoint
  import opened TokenRuns
  import opened Userinfo
  import Jwt

  /** Whom a token speaks of and for whom, what for, from when and until when. */
  predicate Says(claims: Value, issuer: string, subject: string, clientId: string, scope: string, issued: int, expires: int, jti: string) {
    claims.Obj? && claims.Get("iss") == Some(Str(issuer)) && claims.Get("sub") == Some(Str(subject)) &&
    claims.Get("aud") == Some(Str(clientId)) && claims.Get("client_id") == Some(Str(clientId)) &&
    claims.Get("scope") == Some(Str(scope)) && claims.Get("iat") == Some(Int(issued)) && claims.Get("exp") == Some(Int(expires)) &&
    claims.Get("jti") == Some(Str(jti))
  }

  ghost predicate CanSign(cfg: Config) {
    SignaturesCorrect(cfg.c) && |cfg.issuerSk| == SIG_SECRET_KEY_SIZE && cfg.kid != ""
  }

  /** Bound to the session or to a key, a token says what it was made to say wherever it is accepted. */
  lemma MadeTokenSays(cfg: Config, subject: string, clientId: string, scope: string, issued: int, jti: string, session: BoundSession,
                      proof: Option<Proof>, endpoint: Endpoint, active: Option<BoundSession>, shown: Option<Proof>, verb: string,
                      path: string, now: int, token: string, claims: Value)
    requires CanSign(cfg) && endpoint.issuerPk == cfg.c.sigPublic(cfg.issuerSk)
    requires MakeAccessToken(cfg, subject, clientId, scope, issued, jti, session, proof) == Ok(token)
    requires HandleUserinfo(cfg.c, endpoint, token, active, shown, verb, path, now) == Accepted(claims)
    ensures Says(claims, cfg.issuer, subject, clientId, scope, issued, issued + cfg.accessLifetime, jti)
  {
    hide Confirmation, AccessToken, Jwt.ValidateAccessToken, VerifyAccessTokenBinding, SignaturesCorrect, Matches, IssuedClaims, Find, IsMessage;
    var cnf := Confirmation(cfg.c, session, proof).value;
    ConfirmationIsMessage(cfg.c, session, proof);
    var a := AccessClaims(cfg.issuer, subject, clientId, scope, issued, issued + cfg.accessLifetime, jti);
    IssuedTokenIsValidIff(cfg.c, a, cfg.issuerSk, cfg.kid, cnf, endpoint.issuer, endpoint.audience, now);
    IssuedFields(a, cnf);
  }

  /**
    An access token that a code yielded speaks of the user who was logged in at the authorize request
    that drew the code, for the client and the scope of that request.
  */
  lemma RedeemedSpeaksForTheUser(cfg: Config, trace: seq<Provider>, events: seq<Request>, j: nat, endpoint: Endpoint,
                                 active: Option<BoundSession>, shown: Option<Proof>, verb: string, path: string, now: int, claims: Value)
    returns (i: nat)
    requires CanSign(cfg) && endpoint.issuerPk == cfg.c.sigPublic(cfg.issuerSk)
    requires TokenRuns.IsRun(cfg, trace, events) && j < |events| && events[j].RedeemsCode? && Succeeds(cfg, trace[j], events[j])
    requires HandleUserinfo(cfg.c, endpoint, TokenAnswer(cfg, trace[j], events[j]).accessToken, active, shown, verb, path, now) == Accepted(claims)
    ensures i < j && events[i].Authorizes? && events[i].drawnCode == events[j].redeem.code && events[i].request.userId.Some?
    ensures Says(claims, cfg.issuer, events[i].request.userId.value, events[i].request.clientId, events[i].request.scope, events[j].now,
                 events[j].now + cfg.accessLifetime, events[j].draws.jti)
  {
    hide Step, Allowed, CodesDiffer, HandleUserinfo, MakeAccessToken, CanSign, TokenAnswer, Says;
    i := SuccessNeedsCode(cfg, trace, events, j);
    RedemptionToken(cfg, trace[j], events[j]);
    var record := trace[j].codes[events[j].redeem.code];
    MadeTokenSays(cfg, record.userId, record.clientId, record.scope, events[j].now, events[j].draws.jti, events[j].session.value,
                  events[j].proof, endpoint, active, shown, verb, path, now, TokenAnswer(cfg, trace[j], events[j]).accessToken, claims);
  }

  lemma SuccessNeedsCode(cfg: Config, trace: seq<Provider>, events: seq<Request>, j: nat) returns (i: nat)
    requires TokenRuns.IsRun(cfg, trace, events) && j < |events| && events[j].RedeemsCode? && Succeeds(cfg, trace[j], events[j])
    ensures i < j && events[i].Authorizes? && events[i].drawnCode == events[j].redeem.code && events[i].request.userId.Some?
    ensures events[j].redeem.code in trace[j].codes
    ensures var record := trace[j].codes[events[j].redeem.code];
            record.userId == events[i].request.userId.value && record.clientId == events[i].request.clientId &&
            record.scope == events[i].request.scope
  {
    hide Step, Allowed, CodesDiffer, Succeeds;
    SuccessChecks(cfg, trace[j], events[j]);
    i := CodesAreIssued(cfg, trace, events, j, events[j].redeem.code);
  }

  /**
    So does one that a refresh yielded: it speaks of the user of the authorize request at which its
    family began, for the same client, with the scope that refreshes always have.
  */
  lemma RefreshedSpeaksForTheUser(cfg: Config, trace: seq<Provider>, events: seq<Request>, j: nat, endpoint: Endpoint,
                                  active: Option<BoundSession>, shown: Option<Proof>, verb: string, path: string, now: int, claims: Value)
    returns (i: nat)
    requires CanSign(cfg) && endpoint.issuerPk == cfg.c.sigPublic(cfg.issuerSk)
    requires TokenRuns.IsRun(cfg, trace, events) && j < |events| && events[j].Refreshes? && Succeeds(cfg, trace[j], events[j])
    requires HandleUserinfo(cfg.c, endpoint, TokenAnswer(cfg, trace[j], events[j]).accessToken, active, shown, verb, path, now) == Accepted(claims)
    ensures i < j && events[i].Authorizes? && events[i].request.userId.Some? && events[i].request.clientId == events[j].clientId
    ensures Says(claims, cfg.issuer, events[i].request.userId.value, events[i].request.clientId, "openid", events[j].later,
                 events[j].later + cfg.accessLifetime, events[j].draws.jti)
  {
    hide Step, Allowed, CodesDiffer, HandleUserinfo, MakeAccessToken, CanSign, TokenAnswer, Says, RefreshBinding,
         VerifyRefreshBinding;
    RefreshToken(cfg, trace[j], events[j]);
    RefreshSucceedsIff(cfg, trace[j], events[j]);
    var record := Lookup(cfg.hash, trace[j].tokens, events[j].token).value;
    var k := RecordsHaveOrigin(cfg, trace, events, j, cfg.hash(events[j].token));
    SuccessChecks(cfg, trace[k], events[k]);
    i := SuccessNeedsCode(cfg, trace, events, k);
    MadeTokenSays(cfg, record.subject, record.clientId, "openid", events[j].later, events[j].draws.jti, events[j].session.value,
                  events[j].proof, endpoint, active, shown, verb, path, now, TokenAnswer(cfg, trace[j], events[j]).accessToken, claims);
  }
}
