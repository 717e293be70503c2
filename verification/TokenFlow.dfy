/** The ordinary flow succeeds: authorize, redeem the code, refresh, all on one session. */
module TokenFlow {
  import opened Wrappers
  import opened ByteStrings
  import opened Primitives
  import opened SessionBinding
  import opened RefreshTokens
  import opened TokenEndpoint
  import opened TokenRuns
  import opened Userinfo

  /** The issuer can sign, lifetimes are positive, and the session has both binding ids. */
  ghost predicate Ready(cfg: Config, session: BoundSession) {
    SignaturesCorrect(cfg.c) && |cfg.issuerSk| == SIG_SECRET_KEY_SIZE && cfg.kid != "" &&
    cfg.codeLifetime > 0 && cfg.refreshLifetime > 0 &&
    AccessTokenBinding(cfg.c, session).Ok? && RefreshBinding(cfg.c, session).Ok?
  }

  predicate Acceptable(cfg: Config, r: AuthorizeRequest, verifier: string) {
    r.responseType == "code" && r.clientId != "" && r.redirectUri != "" && r.scope != "" && r.state != "" &&
    r.userId.Some? && r.userId.value != "" && r.codeChallengeMethod == "S256" && IsRegistered(cfg, r.clientId, r.redirectUri) &&
    IsAscii(verifier) && verifier != "" && r.codeChallenge == Challenge(cfg.c, verifier) && r.codeChallenge != ""
  }

  lemma TokenMade(cfg: Config, session: BoundSession, subject: string, clientId: string, scope: string, now: int, jti: string)
    requires Ready(cfg, session)
    ensures MakeAccessToken(cfg, subject, clientId, scope, now, jti, session, None).Ok?
  {
    hide MakeAccessToken, AccessTokenBinding, RefreshBinding, SignaturesCorrect, SameBinding, Matches, HandleUserinfo;
    IssuedTokenAcceptedIff(cfg, subject, clientId, scope, now, jti, session,
                           Endpoint(cfg.c.sigPublic(cfg.issuerSk), None, None), session, None, "", "", now);
  }

  lemma Authorized(cfg: Config, r: AuthorizeRequest, verifier: string, code: string, now: int)
    requires Acceptable(cfg, r, verifier)
    ensures Authorize(cfg, NEW_PROVIDER, r, now, code) ==
            (Provider(map[code := RecordFor(cfg, r, now)], map[]), Code(code, r.state))
  {
    hide Challenge;
    assert NEW_PROVIDER.codes[code := RecordFor(cfg, r, now)] == map[code := RecordFor(cfg, r, now)];
  }

  function FirstRecord(cfg: Config, r: AuthorizeRequest, session: BoundSession, draws: Draws, now: int): Record
    requires r.userId.Some? && RefreshBinding(cfg.c, session).Ok?
  {
    Record(draws.familyId, r.userId.value, r.clientId, RefreshBinding(cfg.c, session).value, now, now + cfg.refreshLifetime, None, false)
  }

  lemma Redeemed(cfg: Config, r: AuthorizeRequest, verifier: string, session: BoundSession, code: string, issued: int,
                 draws: Draws, now: int)
    requires Acceptable(cfg, r, verifier) && Ready(cfg, session) && code != "" && now <= issued + cfg.codeLifetime
    ensures var st := Provider(map[code := RecordFor(cfg, r, issued)], map[]);
            var answer := CodeGrant(cfg, st, CodeRequest(r.clientId, r.redirectUri, code, verifier), Some(session), None, now, draws);
            answer.1.Tokens? && answer.1.refreshToken == draws.refreshToken &&
            answer.0.tokens == map[cfg.hash(draws.refreshToken) := FirstRecord(cfg, r, session, draws, now)]
  {
    TokenMade(cfg, session, r.userId.value, r.clientId, r.scope, now, draws.jti);
    hide Challenge, MakeAccessToken, RefreshBinding, AccessTokenBinding, SignaturesCorrect;
    BindingNotEmpty(cfg.c, session);
  }

  // ---------------------------------------------------------------------------------------------
  // One refresh after the other
  // ---------------------------------------------------------------------------------------------

  /** A refresh with the token that the last answer gave. */
  datatype Renewal = Renewal(session: BoundSession, draws: Draws, now: int, later: int)

  function RenewalRequest(clientId: string, token: string, r: Renewal): Request {
    Refreshes(clientId, token, Some(r.session), None, r.draws, r.now, r.later)
  }

  function RenewalRequests(clientId: string, token: string, renewals: seq<Renewal>): (requests: seq<Request>)
    ensures |requests| == |renewals|
    ensures forall i | 0 <= i < |requests| :: requests[i].Refreshes?
    decreases |renewals|
  {
    if renewals == [] then []
    else [RenewalRequest(clientId, token, renewals[0])] + RenewalRequests(clientId, renewals[0].draws.refreshToken, renewals[1..])
  }

  /** Each is made within the lifetime of the token it presents. */
  predicate InTime(cfg: Config, expiry: int, renewals: seq<Renewal>)
    decreases |renewals|
  {
    renewals == [] ||
    (renewals[0].now < expiry && renewals[0].later < expiry && InTime(cfg, renewals[0].later + cfg.refreshLifetime, renewals[1..]))
  }

  /** The token values drawn are not empty, and their hashes are new. */
  predicate NewTokens(cfg: Config, taken: set<string>, renewals: seq<Renewal>)
    decreases |renewals|
  {
    renewals == [] ||
    (renewals[0].draws.refreshToken != "" && cfg.hash(renewals[0].draws.refreshToken) !in taken &&
     NewTokens(cfg, taken + {cfg.hash(renewals[0].draws.refreshToken)}, renewals[1..]))
  }

  /** Each is made on a ready session whose refresh binding is the token's. */
  ghost predicate OnSessionsOf(cfg: Config, meta: Meta, renewals: seq<Renewal>) {
    forall i | 0 <= i < |renewals| :: Ready(cfg, renewals[i].session) && RefreshBinding(cfg.c, renewals[i].session) == Ok(meta)
  }

  /** The token is good for this client until its expiry. */
  predicate Good(cfg: Config, st: Provider, clientId: string, token: string, meta: Meta, expiry: int) {
    var record := Lookup(cfg.hash, st.tokens, token);
    record.Some? && Live(record.value) && record.value.clientId == clientId && record.value.bindingMeta == meta &&
    record.value.expiresAt == expiry
  }

  lemma Renewed(cfg: Config, st: Provider, clientId: string, token: string, meta: Meta, expiry: int, r: Renewal)
    requires clientId != "" && Good(cfg, st, clientId, token, meta, expiry) && Ready(cfg, r.session)
    requires RefreshBinding(cfg.c, r.session) == Ok(meta) && r.now < expiry && r.later < expiry
    requires r.draws.refreshToken != "" && cfg.hash(r.draws.refreshToken) !in st.tokens.Keys
    ensures var e := RenewalRequest(clientId, token, r);
            var st' := Step(cfg, st, e);
            Allowed(cfg, st, e) && Succeeds(cfg, st, e) && TokenAnswer(cfg, st, e).refreshToken == r.draws.refreshToken &&
            st'.tokens.Keys == st.tokens.Keys + {cfg.hash(r.draws.refreshToken)} &&
            Good(cfg, st', clientId, r.draws.refreshToken, meta, r.later + cfg.refreshLifetime)
  {
    hide MakeAccessToken, RefreshBinding, VerifyRefreshBinding, AccessTokenBinding, SignaturesCorrect, RevokeFamily;
    TokenMade(cfg, r.session, st.tokens[cfg.hash(token)].subject, clientId, "openid", r.later, r.draws.jti);
    BindingNotEmpty(cfg.c, r.session);
  }

  /** However many refreshes, each in time: each is answered with tokens. */
  lemma {:induction false} RenewalsSucceed(cfg: Config, st: Provider, clientId: string, token: string, meta: Meta, expiry: int,
                                           renewals: seq<Renewal>) returns (trace: seq<Provider>)
    requires clientId != "" && Good(cfg, st, clientId, token, meta, expiry)
    requires InTime(cfg, expiry, renewals) && NewTokens(cfg, st.tokens.Keys, renewals) && OnSessionsOf(cfg, meta, renewals)
    ensures |trace| == |renewals| + 1 && trace[0] == st
    ensures var requests := RenewalRequests(clientId, token, renewals);
            forall i | 0 <= i < |renewals| ::
              Allowed(cfg, trace[i], requests[i]) && trace[i + 1] == Step(cfg, trace[i], requests[i]) && Succeeds(cfg, trace[i], requests[i])
    decreases |renewals|
  {
    hide Good, Step, Allowed, Succeeds, Ready, RefreshBinding;
    if renewals == [] {
      trace := [st];
    } else {
      var r := renewals[0];
      Renewed(cfg, st, clientId, token, meta, expiry, r);
      var e := RenewalRequest(clientId, token, r);
      var rest := RenewalsSucceed(cfg, Step(cfg, st, e), clientId, r.draws.refreshToken, meta, r.later + cfg.refreshLifetime, renewals[1..]);
      trace := [st] + rest;
      var requests := RenewalRequests(clientId, token, renewals);
      forall i | 0 <= i < |renewals|
        ensures Allowed(cfg, trace[i], requests[i]) && trace[i + 1] == Step(cfg, trace[i], requests[i]) && Succeeds(cfg, trace[i], requests[i])
      {
        if i > 0 {
          assert trace[i] == rest[i - 1] && requests[i] == RenewalRequests(clientId, r.draws.refreshToken, renewals[1..])[i - 1];
        }
      }
    }
  }

  /**
    On a ready session an acceptable request leads to tokens, and the refresh token to new ones, as
    often as one likes when each refresh is made within the lifetime of the token it presents.
  */
  lemma FlowSucceeds(cfg: Config, r: AuthorizeRequest, verifier: string, session: BoundSession, code: string, t0: int,
                     first: Draws, t1: int, renewals: seq<Renewal>)
    returns (trace: seq<Provider>, events: seq<Request>)
    requires Acceptable(cfg, r, verifier) && Ready(cfg, session) && code != "" && first.refreshToken != ""
    requires t0 <= t1 <= t0 + cfg.codeLifetime && RefreshBinding(cfg.c, session).Ok?
    requires InTime(cfg, t1 + cfg.refreshLifetime, renewals) && NewTokens(cfg, {cfg.hash(first.refreshToken)}, renewals)
    requires OnSessionsOf(cfg, RefreshBinding(cfg.c, session).value, renewals)
    ensures TokenRuns.IsRun(cfg, trace, events) && |events| == 2 + |renewals|
    ensures events[1].RedeemsCode? && Succeeds(cfg, trace[1], events[1])
    ensures events[2..] == RenewalRequests(r.clientId, first.refreshToken, renewals)
    ensures forall i | 2 <= i < |events| :: Succeeds(cfg, trace[i], events[i])
  {
    hide Acceptable, Ready, Authorize, CodeGrant, RefreshGrant, RefreshBinding, InTime, NewTokens, OnSessionsOf, Succeeds;
    AcceptableIsComplete(cfg, r, verifier);
    var redeem := CodeRequest(r.clientId, r.redirectUri, code, verifier);
    var e0 := Authorizes(r, code, t0);
    var e1 := RedeemsCode(redeem, Some(session), None, first, t1);
    FirstSteps(cfg, r, verifier, session, code, t0, first, t1);
    var s1 := Step(cfg, NEW_PROVIDER, e0);
    var s2 := Step(cfg, s1, e1);
    var meta := RefreshBinding(cfg.c, session).value;
    var rest := RenewalsSucceed(cfg, s2, r.clientId, first.refreshToken, meta, t1 + cfg.refreshLifetime, renewals);
    var requests := RenewalRequests(r.clientId, first.refreshToken, renewals);
    trace := [NEW_PROVIDER, s1] + rest;
    events := [e0, e1] + requests;
    forall i | 0 <= i < |events| ensures Allowed(cfg, trace[i], events[i]) && trace[i + 1] == Step(cfg, trace[i], events[i]) {
      if i >= 2 {
        assert trace[i] == rest[i - 2] && events[i] == requests[i - 2] && trace[i + 1] == rest[i - 1];
      }
    }
    forall i | 2 <= i < |events| ensures Succeeds(cfg, trace[i], events[i]) {
      assert trace[i] == rest[i - 2] && events[i] == requests[i - 2];
    }
  }

  lemma FirstSteps(cfg: Config, r: AuthorizeRequest, verifier: string, session: BoundSession, code: string, t0: int, first: Draws, t1: int)
    requires Acceptable(cfg, r, verifier) && Ready(cfg, session) && code != "" && first.refreshToken != ""
    requires t0 <= t1 <= t0 + cfg.codeLifetime && RefreshBinding(cfg.c, session).Ok?
    ensures var redeem := CodeRequest(r.clientId, r.redirectUri, code, verifier);
            var e0, e1 := Authorizes(r, code, t0), RedeemsCode(redeem, Some(session), None, first, t1);
            var s1 := Step(cfg, NEW_PROVIDER, e0);
            var s2 := Step(cfg, s1, e1);
            Allowed(cfg, NEW_PROVIDER, e0) && Allowed(cfg, s1, e1) && Succeeds(cfg, s1, e1) &&
            s2.tokens.Keys == {cfg.hash(first.refreshToken)} &&
            Good(cfg, s2, r.clientId, first.refreshToken, RefreshBinding(cfg.c, session).value, t1 + cfg.refreshLifetime)
  {
    hide Acceptable, Ready, Authorize, CodeGrant, RefreshBinding;
    AcceptableIsComplete(cfg, r, verifier);
    Authorized(cfg, r, verifier, code, t0);
    Redeemed(cfg, r, verifier, session, code, t0, first, t1);
  }

  lemma AcceptableIsComplete(cfg: Config, r: AuthorizeRequest, verifier: string)
    requires Acceptable(cfg, r, verifier)
    ensures r.userId.Some? && r.clientId != ""
  {
  }
}
