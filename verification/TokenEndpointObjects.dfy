/** The endpoints over store objects: the code dictionary and the refresh-token store are updated in place. */
module TokenEndpointObjects {
  import opened Wrappers
  import opened SessionBinding
  import opened RefreshTokens
  import opened RefreshTokenObjects
  import opened TokenEndpoint

  class AuthorizationCodeStore {
    var records: map<string, CodeRecord>

    constructor ()
      ensures records == map[]
    {
      records := map[];
    }

    method IssueCode(code: string, record: CodeRecord)
      modifies this
      ensures records == old(records)[code := record]
    {
      records := records[code := record];
    }

    /** A code is taken out of the store when it is read. */
    method ConsumeCode(code: string) returns (r: Option<CodeRecord>)
      modifies this
      ensures records == old(records) - {code}
      ensures r == if code in old(records) then Some(old(records)[code]) else None
    {
      if code !in records {
        assert records - {code} == records;
        return None;
      }
      r := Some(records[code]);
      records := records - {code};
    }
  }

  class Endpoints {
    const cfg: Config
    const codes: AuthorizationCodeStore
    const tokens: RefreshTokenStore

    ghost predicate Valid()
      reads this, tokens
    {
      tokens.Valid() && tokens.hash == cfg.hash
    }

    ghost function State(): Provider
      reads this, codes, tokens, tokens.records.Values
    {
      Provider(codes.records, tokens.Contents())
    }

    constructor (cfg: Config)
      ensures Valid() && this.cfg == cfg && State() == NEW_PROVIDER && fresh(codes) && fresh(tokens)
    {
      this.cfg := cfg;
      codes := new AuthorizationCodeStore();
      tokens := new RefreshTokenStore(cfg.hash);
    }

    method HandleAuthorizeRequest(r: AuthorizeRequest, now: int, drawnCode: string) returns (answer: AuthorizeAnswer)
      requires Valid()
      modifies codes
      ensures Valid() && (State(), answer) == Authorize(cfg, old(State()), r, now, drawnCode)
    {
      if r.responseType != "code" {
        return AuthorizeError("unsupported_response_type");
      }
      if r.clientId == "" || r.redirectUri == "" || r.scope == "" || r.state == "" {
        return AuthorizeError("invalid_request");
      }
      if r.codeChallenge == "" || r.codeChallengeMethod != "S256" {
        return AuthorizeError("invalid_request");
      }
      if r.clientId !in cfg.registry {
        return AuthorizeError("unauthorized_client");
      }
      if !IsRegistered(cfg, r.clientId, r.redirectUri) {
        return AuthorizeError("invalid_request");
      }
      if r.userId.None? {
        return AuthRequired;
      }
      codes.IssueCode(drawnCode, RecordFor(cfg, r, now));
      answer := Code(drawnCode, r.state);
    }

    method IssueCodeTokens(record: CodeRecord, session: BoundSession, proof: Option<Proof>, now: int, draws: Draws)
      returns (response: Response)
      requires Valid()
      modifies tokens
      ensures Valid() && (State(), response) == IssueTokens(cfg, old(State()), record, session, proof, now, draws)
    {
      hide MakeAccessToken, RefreshBinding, Issue;
      var accessToken := MakeAccessToken(cfg, record.userId, record.clientId, record.scope, now, draws.jti, session, proof);
      if accessToken.Raise? {
        return TokenError("invalid_request");
      }
      var meta := RefreshBinding(cfg.c, session);
      if meta.Raise? {
        return TokenError("invalid_request");
      }
      var issued := tokens.IssueToken(record.userId, record.clientId, meta.value, now + cfg.refreshLifetime, now, draws.refreshToken,
                                      draws.familyId);
      if issued.Raise? {
        return TokenError("invalid_request");
      }
      response := Tokens(accessToken.value, issued.value, record.scope);
    }

    method HandleCodeGrant(r: CodeRequest, session: Option<BoundSession>, proof: Option<Proof>, now: int, draws: Draws)
      returns (response: Response)
      requires Valid()
      modifies codes, tokens
      ensures Valid() && (State(), response) == CodeGrant(cfg, old(State()), r, session, proof, now, draws)
    {
      hide IssueTokens, VerifyPkce;
      if session.None? || r.clientId == "" || r.redirectUri == "" || r.verifier == "" {
        return TokenError("invalid_request");
      }
      if r.code == "" {
        return TokenError("invalid_grant");
      }
      var record := codes.ConsumeCode(r.code);
      if record.None? {
        assert old(codes.records) - {r.code} == old(codes.records);
        return TokenError("invalid_grant");
      }
      if now > record.value.expiresAt {
        return TokenError("invalid_grant");
      }
      if record.value.clientId != r.clientId || record.value.redirectUri != r.redirectUri {
        return TokenError("invalid_grant");
      }
      var matches := VerifyPkce(cfg.c, record.value.codeChallenge, record.value.codeChallengeMethod, r.verifier);
      if matches.Raise? {
        return TokenRaises(matches.exception);
      }
      if !matches.value {
        return TokenError("invalid_grant");
      }
      response := IssueCodeTokens(record.value, session.value, proof, now, draws);
    }

    /** The endpoint writes to the store's own record object. */
    method MarkExpired(record: RefreshTokenRecord, token: string)
      requires Valid() && token != "" && cfg.hash(token) in tokens.records && tokens.records[cfg.hash(token)] == record
      modifies record`revoked
      ensures Valid() && tokens.Contents() == Expire(cfg.hash, old(tokens.Contents()), token)
    {
      ghost var before := tokens.Contents();
      record.revoked := true;
      ghost var after := tokens.Contents();
      forall k | k in before ensures after[k] == Expire(cfg.hash, before, token)[k] {
        assert tokens.records[k].Fields() == after[k];
      }
    }

    /** The record object looked up is the one that rotation marks as used. */
    method HandleRefreshGrant(clientId: string, token: string, session: Option<BoundSession>, proof: Option<Proof>, now: int,
                              later: int, draws: Draws) returns (response: Response)
      requires Valid()
      modifies tokens, tokens.records.Values
      ensures Valid()
      ensures (State(), response) == RefreshGrant(cfg, old(State()), clientId, token, session, proof, now, later, draws)
    {
      hide MakeAccessToken, Confirmation, RefreshBinding, VerifyRefreshBinding, Rotate, Revoke, Expire, RefreshAnswer;
      if session.None? || clientId == "" {
        return TokenError("invalid_request");
      }
      var found := tokens.LookupToken(token);
      if found.None? {
        return TokenError("invalid_grant");
      }
      var record := found.value;
      if record.revoked {
        return TokenError("invalid_grant");
      }
      if now >= record.expiresAt {
        MarkExpired(record, token);
        return TokenError("invalid_grant");
      }
      if record.usedAt.Some? {
        var _ := tokens.RevokeFamily(token);
        return TokenError("invalid_grant");
      }
      if record.clientId != clientId {
        return TokenError("invalid_grant");
      }
      if !VerifyRefreshBinding(cfg.c, record.bindingMeta, session.value) {
        return TokenError("invalid_grant");
      }
      response := RotateAndAnswer(record, token, session.value, proof, later, draws);
    }

    method RotateAndAnswer(record: RefreshTokenRecord, token: string, session: BoundSession, proof: Option<Proof>, later: int,
                           draws: Draws) returns (response: Response)
      requires Valid()
      modifies tokens, tokens.records.Values
      ensures Valid()
      ensures codes.records == old(codes.records)
      ensures var meta := RefreshBinding(cfg.c, session);
              if meta.Raise? then tokens.Contents() == old(tokens.Contents()) && response == TokenRaises(meta.exception)
              else
                var (contents, rotated) := Rotate(cfg.hash, old(tokens.Contents()), token, meta.value, later + cfg.refreshLifetime, later,
                                                  draws.refreshToken);
                tokens.Contents() == contents &&
                response == RefreshAnswer(cfg, rotated, record.subject, record.clientId, session, proof, later, draws.jti)
    {
      hide MakeAccessToken, Confirmation, RefreshBinding, Rotate;
      var meta := RefreshBinding(cfg.c, session);
      if meta.Raise? {
        return TokenRaises(meta.exception);
      }
      var rotated := tokens.RotateToken(token, meta.value, later + cfg.refreshLifetime, later, draws.refreshToken);
      response := RefreshAnswer(cfg, rotated, record.subject, record.clientId, session, proof, later, draws.jti);
    }
  }
}
