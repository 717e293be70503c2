/** Guarantees over every interleaving of authorize and token requests. */
module TokenRuns {
  import opened Wrappers
  import opened ByteStrings
  import opened Primitives
  import opened SessionBinding
  import opened RefreshTokens
  import opened TokenEndpoint
  import opened Userinfo

  datatype Request =
    | Authorizes(request: AuthorizeRequest, drawnCode: string, now: int)
    | RedeemsCode(redeem: CodeRequest, session: Option<BoundSession>, proof: Option<Proof>, draws: Draws, now: int)
    | Refreshes(clientId: string, token: string, session: Option<BoundSession>, proof: Option<Proof>, draws: Draws, now: int, later: int)

  function Step(cfg: Config, st: Provider, e: Request): Provider {
    match e
    case Authorizes(r, drawnCode, now) => Authorize(cfg, st, r, now, drawnCode).0
    case RedeemsCode(r, session, proof, draws, now) => CodeGrant(cfg, st, r, session, proof, now, draws).0
    case Refreshes(clientId, token, session, proof, draws, now, later) =>
      RefreshGrant(cfg, st, clientId, token, session, proof, now, later, draws).0
  }

  function TokenAnswer(cfg: Config, st: Provider, e: Request): Response
    requires !e.Authorizes?
  {
    match e
    case RedeemsCode(r, session, proof, draws, now) => CodeGrant(cfg, st, r, session, proof, now, draws).1
    case Refreshes(clientId, token, session, proof, draws, now, later) =>
      RefreshGrant(cfg, st, clientId, token, session, proof, now, later, draws).1
  }

  /** Random refresh tokens and family ids are fresh. */
  predicate Allowed(cfg: Config, st: Provider, e: Request) {
    match e
    case Authorizes(_, _, _) => true
    case RedeemsCode(_, _, _, draws, _) => FreshToken(cfg.hash, st.tokens, draws.refreshToken) && FreshFamily(st.tokens, draws.familyId)
    case Refreshes(_, _, _, _, draws, _, _) => FreshToken(cfg.hash, st.tokens, draws.refreshToken)
  }

  /** Random codes are drawn once. */
  predicate CodesDiffer(events: seq<Request>) {
    forall i, j | 0 <= i < j < |events| && events[i].Authorizes? && events[j].Authorizes? :: events[i].drawnCode != events[j].drawnCode
  }

  ghost predicate IsRun(cfg: Config, trace: seq<Provider>, events: seq<Request>) {
    |trace| == |events| + 1 && trace[0] == NEW_PROVIDER && CodesDiffer(events) &&
    forall i | 0 <= i < |events| :: Allowed(cfg, trace[i], events[i]) && trace[i + 1] == Step(cfg, trace[i], events[i])
  }

  /** The request is answered with tokens. */
  predicate Succeeds(cfg: Config, st: Provider, e: Request) {
    !e.Authorizes? && TokenAnswer(cfg, st, e).Tokens?
  }

  // ---------------------------------------------------------------------------------------------
  // Codes
  // ---------------------------------------------------------------------------------------------

  /** The request passes every check of the authorization endpoint and draws the code. */
  predicate IssuesCode(cfg: Config, e: Request, code: string, record: CodeRecord) {
    e.Authorizes? && e.drawnCode == code && e.request.userId.Some? && e.request.responseType == "code" &&
    e.request.codeChallengeMethod == "S256" && IsRegistered(cfg, e.request.clientId, e.request.redirectUri) &&
    record == RecordFor(cfg, e.request, e.now)
  }

  /** An attempt that reaches the code store: a session, and a client, redirect URI, verifier and code that are not empty. */
  predicate ReachesStore(e: Request) {
    e.RedeemsCode? && e.session.Some? && e.redeem.clientId != "" && e.redeem.redirectUri != "" && e.redeem.verifier != "" &&
    e.redeem.code != ""
  }

  /** How a step changes the codes: one is issued, one is taken, or nothing. */
  lemma CodesAfterStep(cfg: Config, st: Provider, e: Request)
    ensures Step(cfg, st, e).codes ==
            if e.Authorizes? && Authorize(cfg, st, e.request, e.now, e.drawnCode).1.Code?
            then st.codes[e.drawnCode := RecordFor(cfg, e.request, e.now)]
            else if ReachesStore(e) then st.codes - {e.redeem.code} else st.codes
    ensures e.Authorizes? && Authorize(cfg, st, e.request, e.now, e.drawnCode).1.Code? ==>
              e.request.userId.Some? && IssuesCode(cfg, e, e.drawnCode, RecordFor(cfg, e.request, e.now))
  {
    hide Issue, Rotate, Revoke, Lookup, Expire, MakeAccessToken, RefreshBinding, VerifyRefreshBinding, VerifyPkce, Confirmation;
  }

  /** Any attempt that reaches the store burns the code, whatever it answers. */
  lemma AttemptBurnsCode(cfg: Config, st: Provider, e: Request)
    requires ReachesStore(e)
    ensures e.redeem.code !in Step(cfg, st, e).codes
  {
    CodesAfterStep(cfg, st, e);
    hide Step, Authorize;
  }

  /** What a successful redemption has passed. */
  lemma SuccessChecks(cfg: Config, st: Provider, e: Request)
    requires e.RedeemsCode? && Succeeds(cfg, st, e)
    ensures ReachesStore(e) && e.redeem.code in st.codes
    ensures var record := st.codes[e.redeem.code];
            && e.now <= record.expiresAt && record.clientId == e.redeem.clientId && record.redirectUri == e.redeem.redirectUri
            && IsAscii(e.redeem.verifier) && record.codeChallenge == Challenge(cfg.c, e.redeem.verifier)
  {
    hide IssueTokens, Challenge;
  }

  /** Every code in the store was issued by an earlier request, with the record that request called for. */
  lemma {:induction false} CodesAreIssued(cfg: Config, trace: seq<Provider>, events: seq<Request>, j: nat, code: string) returns (i: nat)
    requires IsRun(cfg, trace, events) && j < |trace| && code in trace[j].codes
    ensures i < j && IssuesCode(cfg, events[i], code, trace[j].codes[code])
  {
    hide Step, Allowed, Authorize, IssuesCode, ReachesStore, CodesDiffer, RecordFor;
    var e := events[j - 1];
    CodesAfterStep(cfg, trace[j - 1], e);
    assert trace[j - 1 + 1] == Step(cfg, trace[j - 1], e);
    if e.Authorizes? && Authorize(cfg, trace[j - 1], e.request, e.now, e.drawnCode).1.Code? && e.drawnCode == code {
      i := j - 1;
    } else {
      i := CodesAreIssued(cfg, trace, events, j - 1, code);
    }
  }

  /** A code that was drawn and is gone never comes back. */
  lemma {:induction false} GoneForGood(cfg: Config, trace: seq<Provider>, events: seq<Request>, k: nat, i: nat, j: nat, code: string)
    requires IsRun(cfg, trace, events) && k < i <= j < |trace|
    requires events[k].Authorizes? && events[k].drawnCode == code && code !in trace[i].codes
    ensures code !in trace[j].codes
    decreases j
  {
    hide Step, Allowed, Authorize, IssuesCode, ReachesStore, RecordFor;
    if i < j {
      GoneForGood(cfg, trace, events, k, i, j - 1, code);
      CodesAfterStep(cfg, trace[j - 1], events[j - 1]);
      assert trace[j - 1 + 1] == Step(cfg, trace[j - 1], events[j - 1]);
    }
  }

  /**
    Success implies an earlier authorize request with the same client and a redirect URI registered
    for it, a code that has not expired, and a verifier that matches its S256 challenge.
  */
  lemma SuccessNeedsAuthorization(cfg: Config, trace: seq<Provider>, events: seq<Request>, j: nat) returns (i: nat)
    requires IsRun(cfg, trace, events) && j < |events| && events[j].RedeemsCode? && Succeeds(cfg, trace[j], events[j])
    ensures i < j && events[i].Authorizes? && events[i].drawnCode == events[j].redeem.code
    ensures events[i].request.clientId == events[j].redeem.clientId && events[i].request.redirectUri == events[j].redeem.redirectUri
    ensures IsRegistered(cfg, events[j].redeem.clientId, events[j].redeem.redirectUri)
    ensures events[j].now <= events[i].now + cfg.codeLifetime
    ensures events[i].request.codeChallengeMethod == "S256" && IsAscii(events[j].redeem.verifier) &&
            events[i].request.codeChallenge == Challenge(cfg.c, events[j].redeem.verifier)
  {
    hide Step, Allowed, Authorize, Succeeds, Challenge, CodesDiffer, ReachesStore;
    SuccessChecks(cfg, trace[j], events[j]);
    i := CodesAreIssued(cfg, trace, events, j, events[j].redeem.code);
  }

  /** A code yields at most one token response: after any attempt that reached the store, none. */
  lemma CodeYieldsOnce(cfg: Config, trace: seq<Provider>, events: seq<Request>, i: nat, j: nat)
    requires IsRun(cfg, trace, events) && i < j < |events|
    requires events[i].RedeemsCode? && events[i].redeem.code in trace[i].codes && ReachesStore(events[i])
    requires events[j].RedeemsCode? && Succeeds(cfg, trace[j], events[j])
    ensures events[i].redeem.code != events[j].redeem.code
  {
    hide Step, Allowed, Authorize, Succeeds, CodesDiffer, ReachesStore, RecordFor;
    var code := events[i].redeem.code;
    if events[j].redeem.code == code {
      var k := CodesAreIssued(cfg, trace, events, i, code);
      AttemptBurnsCode(cfg, trace[i], events[i]);
      assert trace[i + 1] == Step(cfg, trace[i], events[i]);
      IssuedDraws(cfg, events[k], code, trace[i].codes[code]);
      GoneForGood(cfg, trace, events, k, i + 1, j, code);
      SuccessChecks(cfg, trace[j], events[j]);
      assert false;
    }
  }

  lemma IssuedDraws(cfg: Config, e: Request, code: string, record: CodeRecord)
    requires IssuesCode(cfg, e, code, record)
    ensures e.Authorizes? && e.drawnCode == code
  {
  }

  // ---------------------------------------------------------------------------------------------
  // Refresh tokens: what a request does to the store
  // ---------------------------------------------------------------------------------------------

  /** The record that a refresh request presents passes every check before rotation. */
  predicate ReachesRotation(cfg: Config, st: Provider, e: Request) {
    e.Refreshes? && e.session.Some? && e.clientId != "" &&
    var r := Lookup(cfg.hash, st.tokens, e.token);
    r.Some? && !r.value.revoked && e.now < r.value.expiresAt && r.value.usedAt.None? && r.value.clientId == e.clientId &&
    VerifyRefreshBinding(cfg.c, r.value.bindingMeta, e.session.value)
  }

  /** The store operation that a request amounts to, if any. */
  function StoreEvent(cfg: Config, st: Provider, e: Request): Option<Event> {
    match e
    case Authorizes(_, _, _) => None
    case RedeemsCode(r, session, _, draws, now) =>
      if !Succeeds(cfg, st, e) then None
      else
        SuccessChecks(cfg, st, e);
        var record := st.codes[r.code];
        var meta := RefreshBinding(cfg.c, session.value);
        if meta.Raise? then None
        else Some(Issues(record.userId, record.clientId, meta.value, now + cfg.refreshLifetime, draws.refreshToken, draws.familyId, now))
    case Refreshes(clientId, token, session, _, draws, now, later) =>
      var r := Lookup(cfg.hash, st.tokens, token);
      if session.None? || clientId == "" || r.None? || r.value.revoked then None
      else if now >= r.value.expiresAt then Some(Consumes(token, now))
      else if r.value.usedAt.Some? then Some(Revokes(token, now))
      else if !ReachesRotation(cfg, st, e) then None
      else
        var meta := RefreshBinding(cfg.c, session.value);
        if meta.Raise? then None
        else Some(Rotates(token, meta.value, later + cfg.refreshLifetime, draws.refreshToken, later))
  }

  lemma RedeemStoreStep(cfg: Config, st: Provider, e: Request)
    requires e.RedeemsCode? && Allowed(cfg, st, e)
    ensures var ev := StoreEvent(cfg, st, e);
            if ev.None? then Step(cfg, st, e).tokens == st.tokens
            else Enabled(cfg.hash, st.tokens, ev.value) && Step(cfg, st, e).tokens == Next(cfg.hash, st.tokens, ev.value)
    ensures Succeeds(cfg, st, e) ==> StoreEvent(cfg, st, e).Some?
  {
    hide VerifyPkce, MakeAccessToken, RefreshBinding, Insert;
    if Succeeds(cfg, st, e) {
      SuccessChecks(cfg, st, e);
    }
  }

  lemma RefreshStoreStep(cfg: Config, st: Provider, e: Request)
    requires e.Refreshes? && Allowed(cfg, st, e)
    ensures var ev := StoreEvent(cfg, st, e);
            if ev.None? then Step(cfg, st, e).tokens == st.tokens
            else Enabled(cfg.hash, st.tokens, ev.value) && Step(cfg, st, e).tokens == Next(cfg.hash, st.tokens, ev.value)
    ensures Succeeds(cfg, st, e) ==> ReachesRotation(cfg, st, e) && StoreEvent(cfg, st, e).Some?
  {
    hide VerifyRefreshBinding, MakeAccessToken, RefreshBinding, Confirmation, Rotate, RevokeFamily;
  }

  /** What a redemption must pass, and what must be made for it. */
  lemma RedeemSucceedsIff(cfg: Config, st: Provider, e: Request)
    requires e.RedeemsCode?
    ensures Succeeds(cfg, st, e) <==>
            ReachesStore(e) && e.redeem.code in st.codes &&
            var record := st.codes[e.redeem.code];
            e.now <= record.expiresAt && record.clientId == e.redeem.clientId && record.redirectUri == e.redeem.redirectUri &&
            record.codeChallengeMethod == "S256" && IsAscii(e.redeem.verifier) && record.codeChallenge == Challenge(cfg.c, e.redeem.verifier) &&
            MakeAccessToken(cfg, record.userId, record.clientId, record.scope, e.now, e.draws.jti, e.session.value, e.proof).Ok? &&
            RefreshBinding(cfg.c, e.session.value).Ok? && record.userId != "" && cfg.refreshLifetime > 0
  {
    hide Challenge, MakeAccessToken, RefreshBinding, Insert;
    if e.session.Some? && RefreshBinding(cfg.c, e.session.value).Ok? {
      BindingNotEmpty(cfg.c, e.session.value);
    }
  }

  lemma BindingNotEmpty(c: Suite, session: BoundSession)
    requires RefreshBinding(c, session).Ok?
    ensures RefreshBinding(c, session).value != map[]
    ensures VerifyRefreshBinding(c, RefreshBinding(c, session).value, session)
  {
    hide SessionBytes, BindingHash;
    assert "binding_method" in RefreshBinding(c, session).value;
  }

  /** A refresh succeeds exactly when it reaches rotation in time and the access token can be made. */
  lemma RefreshSucceedsIff(cfg: Config, st: Provider, e: Request)
    requires e.Refreshes?
    ensures Succeeds(cfg, st, e) <==>
            ReachesRotation(cfg, st, e) &&
            var record := Lookup(cfg.hash, st.tokens, e.token).value;
            e.later < record.expiresAt &&
            MakeAccessToken(cfg, record.subject, record.clientId, "openid", e.later, e.draws.jti, e.session.value, e.proof).Ok?
  {
    hide SessionBytes, BindingHash, AccessToken, Confirmation, RevokeFamily;
  }

  /** The code is there and good for this client, redirect URI and time. */
  predicate CodeFits(st: Provider, e: Request)
    requires e.RedeemsCode?
  {
    ReachesStore(e) && e.redeem.code in st.codes &&
    var record := st.codes[e.redeem.code];
    e.now <= record.expiresAt && record.clientId == e.redeem.clientId && record.redirectUri == e.redeem.redirectUri
  }

  /** Which error a failed redemption is answered with. */
  lemma RedeemError(cfg: Config, st: Provider, e: Request)
    requires e.RedeemsCode? && !Succeeds(cfg, st, e)
    ensures var answer := TokenAnswer(cfg, st, e);
            if e.session.None? || e.redeem.clientId == "" || e.redeem.redirectUri == "" || e.redeem.verifier == ""
            then answer == TokenError("invalid_request")
            else if !CodeFits(st, e) || st.codes[e.redeem.code].codeChallengeMethod != "S256" then answer == TokenError("invalid_grant")
            else if !IsAscii(e.redeem.verifier) then answer == TokenRaises(ValueError)
            else if st.codes[e.redeem.code].codeChallenge != Challenge(cfg.c, e.redeem.verifier) then answer == TokenError("invalid_grant")
            else answer == TokenError("invalid_request")
  {
    hide Challenge, MakeAccessToken, RefreshBinding, Issue;
  }

  /** And which a failed refresh is answered with. */
  lemma RefreshError(cfg: Config, st: Provider, e: Request)
    requires e.Refreshes? && !Succeeds(cfg, st, e)
    ensures var answer := TokenAnswer(cfg, st, e);
            if e.session.None? || e.clientId == "" then answer == TokenError("invalid_request")
            else if !ReachesRotation(cfg, st, e) || e.later >= Lookup(cfg.hash, st.tokens, e.token).value.expiresAt
            then answer == TokenError("invalid_grant")
            else if Confirmation(cfg.c, e.session.value, e.proof).Raise? then answer == TokenError("invalid_request")
            else answer.TokenRaises?
  {
    hide SessionBytes, BindingHash, MakeAccessToken, Confirmation, RevokeFamily;
  }

  /** Which refusal an authorize request gets. */
  lemma AuthorizeRefusal(cfg: Config, st: Provider, r: AuthorizeRequest, now: int, drawnCode: string)
    ensures var answer := Authorize(cfg, st, r, now, drawnCode).1;
            var complete := r.clientId != "" && r.redirectUri != "" && r.scope != "" && r.state != "" && r.codeChallenge != "" &&
                            r.codeChallengeMethod == "S256";
            (answer == AuthorizeError("unsupported_response_type") <==> r.responseType != "code") &&
            (answer == AuthorizeError("unauthorized_client") <==> r.responseType == "code" && complete && r.clientId !in cfg.registry) &&
            (answer == AuthorizeError("invalid_request") <==>
             r.responseType == "code" && (!complete || (r.clientId in cfg.registry && r.redirectUri !in cfg.registry[r.clientId]))) &&
            (answer == AuthRequired <==>
             r.responseType == "code" && complete && IsRegistered(cfg, r.clientId, r.redirectUri) && r.userId.None?)
  {
    assert "unsupported_response_type"[2] != "unauthorized_client"[2];
    assert "invalid_request"[0] != "unauthorized_client"[0] && "invalid_request"[0] != "unsupported_response_type"[0];
  }

  /** An authorize request is answered with the code exactly when it passes every check; the code's record is the request's. */
  lemma AuthorizedIff(cfg: Config, st: Provider, r: AuthorizeRequest, now: int, drawnCode: string)
    ensures var (st', answer) := Authorize(cfg, st, r, now, drawnCode);
            if r.responseType == "code" && r.clientId != "" && r.redirectUri != "" && r.scope != "" && r.state != "" &&
               r.codeChallenge != "" && r.codeChallengeMethod == "S256" && IsRegistered(cfg, r.clientId, r.redirectUri) && r.userId.Some?
            then
              answer == Code(drawnCode, r.state) && st'.tokens == st.tokens && drawnCode in st'.codes &&
              st'.codes[drawnCode] == CodeRecord(r.clientId, r.redirectUri, r.scope, r.userId.value, r.codeChallenge, "S256",
                                                 now + cfg.codeLifetime)
            else st' == st && !answer.Code?
  {
  }

  /** Every request is one step of the store, or none. */
  lemma StoreStep(cfg: Config, st: Provider, e: Request)
    requires Allowed(cfg, st, e)
    ensures var ev := StoreEvent(cfg, st, e);
            if ev.None? then Step(cfg, st, e).tokens == st.tokens
            else Enabled(cfg.hash, st.tokens, ev.value) && Step(cfg, st, e).tokens == Next(cfg.hash, st.tokens, ev.value)
  {
    if e.RedeemsCode? {
      hide StoreEvent, Step, Enabled, Next, Allowed;
      RedeemStoreStep(cfg, st, e);
    } else if e.Refreshes? {
      hide StoreEvent, Step, Enabled, Next, Allowed;
      RefreshStoreStep(cfg, st, e);
    }
  }

  // ---------------------------------------------------------------------------------------------
  // Families keep their owner
  // ---------------------------------------------------------------------------------------------

  /** Family, subject, client and binding: what never changes in a family. */
  datatype Ownership = Ownership(familyId: string, subject: string, clientId: string, bindingMeta: Meta)

  function Owner(r: Record): Ownership {
    Ownership(r.familyId, r.subject, r.clientId, r.bindingMeta)
  }

  /** The request redeemed a code and started the family, bound to its session. */
  predicate Starts(cfg: Config, st: Provider, e: Request, owner: Ownership) {
    e.RedeemsCode? && Succeeds(cfg, st, e) && e.session.Some? && e.redeem.code in st.codes &&
    owner.familyId == e.draws.familyId && owner.subject == st.codes[e.redeem.code].userId &&
    owner.clientId == e.redeem.clientId && RefreshBinding(cfg.c, e.session.value) == Ok(owner.bindingMeta)
  }

  /** One store step: a record there keeps its owner, and a new one is issued or joins a record that is there. */
  lemma OwnersAfterStoreStep(hash: Hash, s: Store, ev: Event, k: string)
    requires Enabled(hash, s, ev) && k in Next(hash, s, ev)
    ensures k in s ==> Owner(Next(hash, s, ev)[k]) == Owner(s[k])
    ensures k !in s && ev.Issues? ==> Owner(Next(hash, s, ev)[k]) == Ownership(ev.drawnFamily, ev.subject, ev.clientId, ev.meta)
    ensures k !in s && ev.Rotates? ==>
              hash(ev.token) in s && Owner(Next(hash, s, ev)[k]) == Owner(s[hash(ev.token)]).(bindingMeta := ev.meta)
    ensures k !in s ==> ev.Issues? || ev.Rotates?
  {
    StepPersists(hash, s, ev);
    hide RevokeFamily, Expire;
    if ev.Consumes? || ev.Rotates? {
      ConsumeKeepsKeys(hash, s, ev.token, ev.now);
    }
  }

  /** What a rotation is given as metadata is what the record already has. */
  lemma RotationKeepsBinding(cfg: Config, st: Provider, e: Request)
    requires e.Refreshes? && StoreEvent(cfg, st, e).Some? && StoreEvent(cfg, st, e).value.Rotates?
    requires var k := cfg.hash(e.token); k in st.tokens ==> st.tokens[k].bindingMeta.Keys == {"binding_method", "binding_hash"}
    ensures cfg.hash(e.token) in st.tokens && StoreEvent(cfg, st, e).value.token == e.token &&
            StoreEvent(cfg, st, e).value.meta == st.tokens[cfg.hash(e.token)].bindingMeta
  {
    hide RefreshBinding, VerifyRefreshBinding;
    VerifiedIsRebuilt(cfg.c, st.tokens[cfg.hash(e.token)].bindingMeta, e.session.value);
  }

  lemma StartedByRedemption(cfg: Config, st: Provider, e: Request)
    requires e.RedeemsCode? && StoreEvent(cfg, st, e).Some?
    ensures var ev := StoreEvent(cfg, st, e).value;
            ev.Issues? && Starts(cfg, st, e, Ownership(ev.drawnFamily, ev.subject, ev.clientId, ev.meta))
  {
    hide Succeeds, RefreshBinding;
    SuccessChecks(cfg, st, e);
  }

  lemma StartedMetaKeys(cfg: Config, st: Provider, e: Request, owner: Ownership)
    requires Starts(cfg, st, e, owner)
    ensures owner.bindingMeta.Keys == {"binding_method", "binding_hash"}
  {
    hide Succeeds;
  }

  /** Every record goes back to the redemption that started its family, with the same owner and binding. */
  lemma {:induction false} RecordsHaveOrigin(cfg: Config, trace: seq<Provider>, events: seq<Request>, j: nat, k: string) returns (i: nat)
    requires IsRun(cfg, trace, events) && j < |trace| && k in trace[j].tokens
    ensures i < j && Starts(cfg, trace[i], events[i], Owner(trace[j].tokens[k]))
    decreases j, 1
  {
    hide Step, Allowed, CodesDiffer, Starts, StoreEvent, Next, Enabled, FreshToken, FreshFamily;
    var st, e := trace[j - 1], events[j - 1];
    assert trace[j - 1 + 1] == Step(cfg, st, e);
    StoreStep(cfg, st, e);
    if StoreEvent(cfg, st, e).None? {
      i := RecordsHaveOrigin(cfg, trace, events, j - 1, k);
    } else {
      var ev := StoreEvent(cfg, st, e).value;
      OwnersAfterStoreStep(cfg.hash, st.tokens, ev, k);
      if k in st.tokens {
        i := RecordsHaveOrigin(cfg, trace, events, j - 1, k);
      } else {
        i := NewRecordHasOrigin(cfg, trace, events, j, k);
      }
    }
  }

  lemma {:induction false} NewRecordHasOrigin(cfg: Config, trace: seq<Provider>, events: seq<Request>, j: nat, k: string) returns (i: nat)
    requires IsRun(cfg, trace, events) && 0 < j < |trace| && k in trace[j].tokens && k !in trace[j - 1].tokens
    ensures i < j && Starts(cfg, trace[i], events[i], Owner(trace[j].tokens[k]))
    decreases j, 0
  {
    hide Step, Allowed, CodesDiffer, Starts, StoreEvent, Next, Enabled, FreshToken, FreshFamily;
    var st, e := trace[j - 1], events[j - 1];
    assert trace[j - 1 + 1] == Step(cfg, st, e);
    StoreStep(cfg, st, e);
    var ev := StoreEvent(cfg, st, e).value;
    OwnersAfterStoreStep(cfg.hash, st.tokens, ev, k);
    StoreEventKind(cfg, st, e);
    if e.RedeemsCode? {
      StartedByRedemption(cfg, st, e);
      i := j - 1;
    } else {
      i := RecordsHaveOrigin(cfg, trace, events, j - 1, cfg.hash(ev.token));
      StartedMetaKeys(cfg, trace[i], events[i], Owner(st.tokens[cfg.hash(ev.token)]));
      RotationKeepsBinding(cfg, st, e);
    }
  }

  lemma StoreEventKind(cfg: Config, st: Provider, e: Request)
    requires StoreEvent(cfg, st, e).Some?
    ensures !e.Authorizes?
    ensures StoreEvent(cfg, st, e).value.Issues? ==> e.RedeemsCode?
    ensures StoreEvent(cfg, st, e).value.Rotates? ==> e.Refreshes? && StoreEvent(cfg, st, e).value.token == e.token
  {
    hide Succeeds, RefreshBinding, ReachesRotation;
  }

  lemma {:induction false} StorePersists(cfg: Config, trace: seq<Provider>, events: seq<Request>, i: nat, j: nat)
    requires IsRun(cfg, trace, events) && i <= j < |trace|
    ensures Persists(trace[i].tokens, trace[j].tokens)
    decreases j
  {
    hide Step, Allowed, CodesDiffer, StoreEvent, Next, Enabled;
    if i < j {
      StorePersists(cfg, trace, events, i, j - 1);
      assert trace[j - 1 + 1] == Step(cfg, trace[j - 1], events[j - 1]);
      StoreStep(cfg, trace[j - 1], events[j - 1]);
      if StoreEvent(cfg, trace[j - 1], events[j - 1]).Some? {
        StepPersists(cfg.hash, trace[j - 1].tokens, StoreEvent(cfg, trace[j - 1], events[j - 1]).value);
      }
    }
  }

  /** The redemption that starts a family leaves a record of it. */
  lemma StartLeavesRecord(cfg: Config, st: Provider, e: Request, owner: Ownership)
    requires Starts(cfg, st, e, owner) && Allowed(cfg, st, e)
    ensures var k := cfg.hash(e.draws.refreshToken);
            k in Step(cfg, st, e).tokens && Step(cfg, st, e).tokens[k].familyId == owner.familyId
  {
    hide VerifyPkce, MakeAccessToken, RefreshBinding;
  }

  lemma FreshFamilyOf(cfg: Config, st: Provider, e: Request, k: string)
    requires Allowed(cfg, st, e) && e.RedeemsCode? && k in st.tokens
    ensures st.tokens[k].familyId != e.draws.familyId
  {
  }

  lemma FamilyStartsOnce(cfg: Config, trace: seq<Provider>, events: seq<Request>, i: nat, j: nat, a: Ownership, b: Ownership)
    requires IsRun(cfg, trace, events) && i < j < |events|
    requires Starts(cfg, trace[i], events[i], a) && Starts(cfg, trace[j], events[j], b)
    ensures a.familyId != b.familyId
  {
    hide Step, Allowed, CodesDiffer, Succeeds, RefreshBinding;
    var k := cfg.hash(events[i].draws.refreshToken);
    StartLeavesRecord(cfg, trace[i], events[i], a);
    assert trace[i + 1] == Step(cfg, trace[i], events[i]);
    StorePersists(cfg, trace, events, i + 1, j);
    FreshFamilyOf(cfg, trace[j], events[j], k);
  }

  /** A family keeps one subject, one client and one binding for its whole life. */
  lemma FamilyKeepsOwner(cfg: Config, trace: seq<Provider>, events: seq<Request>, i: nat, j: nat, k: string, l: string)
    requires IsRun(cfg, trace, events) && i < |trace| && j < |trace| && k in trace[i].tokens && l in trace[j].tokens
    requires trace[i].tokens[k].familyId == trace[j].tokens[l].familyId
    ensures Owner(trace[i].tokens[k]) == Owner(trace[j].tokens[l])
  {
    hide IsRun, Succeeds;
    var m := RecordsHaveOrigin(cfg, trace, events, i, k);
    var n := RecordsHaveOrigin(cfg, trace, events, j, l);
    if m < n {
      RunLengths(cfg, trace, events);
      FamilyStartsOnce(cfg, trace, events, m, n, Owner(trace[i].tokens[k]), Owner(trace[j].tokens[l]));
    } else if n < m {
      RunLengths(cfg, trace, events);
      FamilyStartsOnce(cfg, trace, events, n, m, Owner(trace[j].tokens[l]), Owner(trace[i].tokens[k]));
    }
  }

  lemma RunLengths(cfg: Config, trace: seq<Provider>, events: seq<Request>)
    requires IsRun(cfg, trace, events)
    ensures |trace| == |events| + 1
  {
    hide Step, Allowed, CodesDiffer;
  }

  /**
    A refresh that is answered with tokens runs on a session whose refresh binding id has the same
    digest as that of the session that redeemed the original authorization code, for that session's
    client.
  */
  lemma RefreshRunsOnSameBinding(cfg: Config, trace: seq<Provider>, events: seq<Request>, j: nat) returns (i: nat)
    requires IsRun(cfg, trace, events) && j < |events| && events[j].Refreshes? && Succeeds(cfg, trace[j], events[j])
    ensures i < j && events[i].RedeemsCode? && Succeeds(cfg, trace[i], events[i])
    ensures events[i].redeem.clientId == events[j].clientId
    ensures events[i].session.Some? && events[j].session.Some?
    ensures var a, b := SessionBytes(events[i].session.value.refreshBindingId), SessionBytes(events[j].session.value.refreshBindingId);
            a.Ok? && b.Ok? && cfg.c.sha256(a.value) == cfg.c.sha256(b.value)
  {
    hide Step, CodesDiffer, Succeeds, StoreEvent, RefreshBinding, VerifyRefreshBinding, FreshToken, SessionBytes;
    RefreshStoreStep(cfg, trace[j], events[j]);
    var k := cfg.hash(events[j].token);
    i := RecordsHaveOrigin(cfg, trace, events, j, k);
    BindingNeedsBytes(cfg.c, events[i].session.value);
    RefreshBindingIff(cfg.c, events[i].session.value, events[j].session.value);
  }

  lemma BindingNeedsBytes(c: Suite, session: BoundSession)
    ensures RefreshBinding(c, session).Ok? ==> SessionBytes(session.refreshBindingId).Ok?
  {
  }

  // ---------------------------------------------------------------------------------------------
  // Refresh tokens: single use and reuse
  // ---------------------------------------------------------------------------------------------

  /** At every moment each family has at most one token that can still be used. */
  lemma {:induction false} EndpointsKeepOneLive(cfg: Config, trace: seq<Provider>, events: seq<Request>, i: nat)
    requires IsRun(cfg, trace, events) && i < |trace|
    ensures OneLivePerFamily(trace[i].tokens)
  {
    hide Step, Allowed, CodesDiffer, StoreEvent, Next, Enabled, OneLivePerFamily;
    if i == 0 {
      NoneLiveAtStart();
    } else {
      EndpointsKeepOneLive(cfg, trace, events, i - 1);
      assert trace[i - 1 + 1] == Step(cfg, trace[i - 1], events[i - 1]);
      StoreStep(cfg, trace[i - 1], events[i - 1]);
      if StoreEvent(cfg, trace[i - 1], events[i - 1]).Some? {
        StepKeepsOneLive(cfg.hash, trace[i - 1].tokens, StoreEvent(cfg, trace[i - 1], events[i - 1]).value);
      }
    }
  }

  /** The request presents a token that was used, is not revoked and has not expired. */
  predicate PresentsUsed(cfg: Config, st: Provider, e: Request) {
    e.Refreshes? && e.session.Some? && e.clientId != "" &&
    var r := Lookup(cfg.hash, st.tokens, e.token);
    r.Some? && !r.value.revoked && e.now < r.value.expiresAt && r.value.usedAt.Some?
  }

  lemma UsedTokenEndsFamily(cfg: Config, st: Provider, e: Request)
    requires PresentsUsed(cfg, st, e)
    ensures FamilyDead(Step(cfg, st, e).tokens, st.tokens[cfg.hash(e.token)].familyId)
    ensures !Succeeds(cfg, st, e)
  {
    hide VerifyRefreshBinding, RefreshBinding, MakeAccessToken, Confirmation;
    var k := cfg.hash(e.token);
    var s' := Step(cfg, st, e).tokens;
    assert k in s' && s'[k].familyId == st.tokens[k].familyId;
  }

  lemma {:induction false} FamilyStaysDead(cfg: Config, trace: seq<Provider>, events: seq<Request>, i: nat, j: nat, familyId: string)
    requires IsRun(cfg, trace, events) && i <= j < |trace| && FamilyDead(trace[i].tokens, familyId)
    ensures FamilyDead(trace[j].tokens, familyId)
    decreases j
  {
    hide Step, Allowed, CodesDiffer, StoreEvent, Next, Enabled, FamilyDead;
    if i < j {
      FamilyStaysDead(cfg, trace, events, i, j - 1, familyId);
      assert trace[j - 1 + 1] == Step(cfg, trace[j - 1], events[j - 1]);
      StoreStep(cfg, trace[j - 1], events[j - 1]);
      if StoreEvent(cfg, trace[j - 1], events[j - 1]).Some? {
        StepKeepsDead(cfg.hash, trace[j - 1].tokens, StoreEvent(cfg, trace[j - 1], events[j - 1]).value, familyId);
      }
    }
  }

  /** After a used token is presented again no refresh in its family is answered with tokens. */
  lemma ReuseStopsRefreshing(cfg: Config, trace: seq<Provider>, events: seq<Request>, i: nat, j: nat)
    requires IsRun(cfg, trace, events) && i < j < |events| && PresentsUsed(cfg, trace[i], events[i])
    requires events[j].Refreshes? && Succeeds(cfg, trace[j], events[j])
    ensures cfg.hash(events[j].token) in trace[j].tokens
    ensures trace[j].tokens[cfg.hash(events[j].token)].familyId != trace[i].tokens[cfg.hash(events[i].token)].familyId
  {
    hide Step, CodesDiffer, Succeeds, StoreEvent, VerifyRefreshBinding, FreshToken;
    RefreshStoreStep(cfg, trace[j], events[j]);
    UsedTokenEndsFamily(cfg, trace[i], events[i]);
    assert trace[i + 1] == Step(cfg, trace[i], events[i]);
    FamilyStaysDead(cfg, trace, events, i + 1, j, trace[i].tokens[cfg.hash(events[i].token)].familyId);
  }

  /** A refresh token yields at most one token response. */
  lemma RefreshTokenYieldsOnce(cfg: Config, trace: seq<Provider>, events: seq<Request>, i: nat, j: nat)
    requires IsRun(cfg, trace, events) && i < j < |events|
    requires events[i].Refreshes? && Succeeds(cfg, trace[i], events[i]) && events[j].Refreshes? && Succeeds(cfg, trace[j], events[j])
    ensures cfg.hash(events[i].token) != cfg.hash(events[j].token)
  {
    hide Step, CodesDiffer, Succeeds, VerifyRefreshBinding, FreshToken;
    RefreshStoreStep(cfg, trace[i], events[i]);
    RefreshStoreStep(cfg, trace[j], events[j]);
    assert trace[i + 1] == Step(cfg, trace[i], events[i]);
    SuccessIsInTime(cfg, trace[i], events[i]);
    RotationSpends(cfg, trace[i], events[i]);
    StorePersists(cfg, trace, events, i + 1, j);
  }

  lemma SuccessIsInTime(cfg: Config, st: Provider, e: Request)
    requires ReachesRotation(cfg, st, e) && Succeeds(cfg, st, e)
    ensures e.later < st.tokens[cfg.hash(e.token)].expiresAt
  {
    hide Confirmation, MakeAccessToken, SessionBytes, BindingHash, RevokeFamily;
  }

  /** A request that reaches rotation spends its token, and the family gets its next one, whatever is answered. */
  lemma RotationSpends(cfg: Config, st: Provider, e: Request)
    requires ReachesRotation(cfg, st, e) && Allowed(cfg, st, e) && e.later < st.tokens[cfg.hash(e.token)].expiresAt
    ensures var k, tokens := cfg.hash(e.token), Step(cfg, st, e).tokens;
            k in tokens && tokens[k].usedAt.Some? &&
            var next := cfg.hash(e.draws.refreshToken);
            next in tokens && Live(tokens[next]) && tokens[next].familyId == st.tokens[k].familyId
  {
    hide Confirmation, MakeAccessToken, SessionBytes, BindingHash;
  }

  /** In particular with a proof that does not verify: the answer is an error, and the token is spent. */
  lemma BadProofSpends(cfg: Config, st: Provider, e: Request)
    requires ReachesRotation(cfg, st, e) && Allowed(cfg, st, e) && e.later < st.tokens[cfg.hash(e.token)].expiresAt
    requires Confirmation(cfg.c, e.session.value, e.proof).Raise?
    ensures TokenAnswer(cfg, st, e) == TokenError("invalid_request")
    ensures Step(cfg, st, e).tokens[cfg.hash(e.token)].usedAt.Some?
  {
    RotationSpends(cfg, st, e);
    hide Confirmation, MakeAccessToken, SessionBytes, BindingHash;
  }

  /** A token that could be used can still be used after a request exactly when the request did not reach rotation. */
  lemma StillUsableIff(cfg: Config, st: Provider, e: Request)
    requires e.Refreshes? && Allowed(cfg, st, e) && Lookup(cfg.hash, st.tokens, e.token).Some?
    requires Live(st.tokens[cfg.hash(e.token)]) && e.now < st.tokens[cfg.hash(e.token)].expiresAt
    ensures var tokens := Step(cfg, st, e).tokens;
            cfg.hash(e.token) in tokens && (Live(tokens[cfg.hash(e.token)]) <==> !ReachesRotation(cfg, st, e))
  {
    hide Confirmation, MakeAccessToken, SessionBytes, BindingHash, RevokeFamily;
    if ReachesRotation(cfg, st, e) && e.later < st.tokens[cfg.hash(e.token)].expiresAt {
      RotationSpends(cfg, st, e);
    }
  }

  // ---------------------------------------------------------------------------------------------
  // From the token endpoint to the resource server
  // ---------------------------------------------------------------------------------------------

  /**
    The access token that a code or a refresh token yielded on one session, without a proof, is
    accepted by userinfo on another session exactly in time, for matching issuer and audience, and
    when the binding ids of the two sessions have the same digest.
  */
  lemma IssuedTokenAcceptedIff(cfg: Config, subject: string, clientId: string, scope: string, issued: int, jti: string,
                               session: BoundSession, endpoint: Endpoint, active: BoundSession, proof: Option<Proof>,
                               verb: string, path: string, now: int)
    requires SignaturesCorrect(cfg.c) && |cfg.issuerSk| == SIG_SECRET_KEY_SIZE && cfg.kid != ""
    requires endpoint.issuerPk == cfg.c.sigPublic(cfg.issuerSk) && AccessTokenBinding(cfg.c, session).Ok?
    ensures var token := MakeAccessToken(cfg, subject, clientId, scope, issued, jti, session, None);
            token.Ok? &&
            (HandleUserinfo(cfg.c, endpoint, token.value, Some(active), proof, verb, path, now).Accepted? <==>
             now < issued + cfg.accessLifetime && Matches(endpoint.issuer, cfg.issuer) && Matches(endpoint.audience, clientId) &&
             SameBinding(cfg.c, session, active))
  {
    hide AccessToken, HandleUserinfo, AccessTokenBinding, SameBinding, Matches, SignaturesCorrect, IssuedClaims;
    ConfirmationIsMessage(cfg.c, session, None);
    AcceptedIff(cfg.c, endpoint, AccessClaims(cfg.issuer, subject, clientId, scope, issued, issued + cfg.accessLifetime, jti),
                cfg.issuerSk, cfg.kid, session, active, proof, verb, path, now);
  }

  /** A successful redemption answers with the access token made for the code's user, client and scope. */
  lemma RedemptionToken(cfg: Config, st: Provider, e: Request)
    requires e.RedeemsCode? && Succeeds(cfg, st, e)
    ensures e.session.Some? && e.redeem.code in st.codes
    ensures var record := st.codes[e.redeem.code];
            MakeAccessToken(cfg, record.userId, record.clientId, record.scope, e.now, e.draws.jti, e.session.value, e.proof) ==
            Ok(TokenAnswer(cfg, st, e).accessToken) &&
            TokenAnswer(cfg, st, e).refreshToken == e.draws.refreshToken && TokenAnswer(cfg, st, e).scope == record.scope
  {
    hide MakeAccessToken, VerifyPkce, RefreshBinding, Insert;
  }

  lemma RefreshToken(cfg: Config, st: Provider, e: Request)
    requires e.Refreshes? && Succeeds(cfg, st, e)
    ensures e.session.Some? && Lookup(cfg.hash, st.tokens, e.token).Some?
    ensures var record := Lookup(cfg.hash, st.tokens, e.token).value;
            MakeAccessToken(cfg, record.subject, record.clientId, "openid", e.later, e.draws.jti, e.session.value, e.proof) ==
            Ok(TokenAnswer(cfg, st, e).accessToken) &&
            TokenAnswer(cfg, st, e).refreshToken == e.draws.refreshToken && TokenAnswer(cfg, st, e).scope == "openid"
  {
    hide MakeAccessToken, Confirmation, RefreshBinding, VerifyRefreshBinding, Insert, Expire, Revoke;
  }
}
