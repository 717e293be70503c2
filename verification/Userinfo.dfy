/** The userinfo endpoint's decision, and exactly when it accepts a token that the issuer made. */
module Userinfo {
  import opened Wrappers
  import opened ByteStrings
  import opened CanonicalJson
  import opened Primitives
  import opened SessionBinding
  import opened Jwt
  import JsonText
  import Utf8

  datatype Answer =
    | InvalidToken
    | MissingSession
    | BindingMismatch
    | Accepted(claims: Value)
    | Raised(exception: Exception)

  datatype Endpoint = Endpoint(issuerPk: Bytes, issuer: Option<string>, audience: Option<string>)

  function HandleUserinfo(c: Suite, endpoint: Endpoint, token: string, session: Option<BoundSession>, proof: Option<Proof>,
                          verb: string, path: string, now: int): Answer
  {
    if token == "" then InvalidToken
    else if session.None? then MissingSession
    else
      match ValidateAccessToken(c, token, endpoint.issuerPk, endpoint.issuer, endpoint.audience, now)
      case Raise(_) => InvalidToken
      case Ok(claims) =>
        match VerifyAccessTokenBinding(c, claims, session.value, proof, verb, path)
        case Raise(e) => Raised(e)
        case Ok(false) => BindingMismatch
        case Ok(true) => if claims.Obj? && claims.Get("sub").Some? then Accepted(claims) else Raised(KeyError)
  }

  /** What the token endpoint puts into an access token, besides the confirmation. */
  datatype AccessClaims = AccessClaims(iss: string, sub: string, clientId: string, scope: string, iat: int, exp: int, jti: string)

  function ClaimsMessage(a: AccessClaims): (claims: Value)
    ensures claims.Obj?
  {
    Obj([Field("iss", Str(a.iss)), Field("sub", Str(a.sub)), Field("aud", Str(a.clientId)), Field("client_id", Str(a.clientId)),
         Field("scope", Str(a.scope)), Field("iat", Int(a.iat)), Field("exp", Int(a.exp)), Field("jti", Str(a.jti))])
  }

  /** The second and third characters tell the claim names apart. */
  function Tag(name: string): int {
    if |name| < 3 then 0 else name[1] as int * 0x20_0000 + name[2] as int
  }

  lemma DistinctByTag(fields: seq<Field>)
    requires forall i, j | 0 <= i < j < |fields| :: Tag(fields[i].key) != Tag(fields[j].key)
    ensures Distinct(fields)
  {
  }

  lemma ClaimsAreDistinct(a: AccessClaims)
    ensures Distinct(ClaimsMessage(a).fields) && IsMessage(ClaimsMessage(a))
  {
    DistinctByTag(ClaimsMessage(a).fields);
    hide Tag;
  }

  lemma ClaimsFields(a: AccessClaims)
    ensures var claims := ClaimsMessage(a);
            && claims.Get("iss") == Some(Str(a.iss)) && claims.Get("sub") == Some(Str(a.sub))
            && claims.Get("aud") == Some(Str(a.clientId)) && claims.Get("exp") == Some(Int(a.exp))
            && claims.Get("client_id") == Some(Str(a.clientId)) && claims.Get("scope") == Some(Str(a.scope))
            && claims.Get("iat") == Some(Int(a.iat)) && claims.Get("jti") == Some(Str(a.jti))
            && claims.Get("nbf") == None
  {
    hide Find, Distinct;
    ClaimsAreDistinct(a);
    var fields := ClaimsMessage(a).fields;
    FindAt(fields, 0);
    FindAt(fields, 1);
    FindAt(fields, 2);
    FindAt(fields, 3);
    FindAt(fields, 4);
    FindAt(fields, 5);
    FindAt(fields, 6);
    FindAt(fields, 7);
    FindNone(fields, "nbf");
  }

  // ---------------------------------------------------------------------------------------------
  // The claims of an issued token
  // ---------------------------------------------------------------------------------------------

  lemma {:induction false} FindInAssigned(fields: seq<Field>, f: Field, key: string)
    ensures Find(JsonText.Assign(fields, f), key) == if key == f.key then Some(f.val) else Find(fields, key)
  {
    if fields != [] && fields[0].key != f.key {
      FindInAssigned(fields[1..], f, key);
      var r := JsonText.Assign(fields, f);
      assert r[1..] == JsonText.Assign(fields[1..], f);
    }
  }

  lemma ReadAssigned(claims: Value, cnf: Value, key: string)
    requires IsMessage(claims) && claims.Obj? && IsMessage(cnf)
    ensures var r := WithConfirmation(claims, cnf);
            Normal(r).Obj? && Normal(r).Get(key) == NormalOption(if key == "cnf" then Some(cnf) else claims.Get(key))
  {
    var r := WithConfirmation(claims, cnf);
    NormalOfObject(r);
    GetOfNormal(r, key);
    FindInAssigned(claims.fields, Field("cnf", cnf), key);
    hide Find, Normal, IsMessage, JsonText.Assign;
  }

  /** What a resource server reads from an issued token. */
  function IssuedClaims(a: AccessClaims, cnf: Value): Value
    requires IsMessage(cnf)
  {
    ClaimsAreDistinct(a);
    Normal(WithConfirmation(ClaimsMessage(a), cnf))
  }

  lemma IssuedFields(a: AccessClaims, cnf: Value)
    requires IsMessage(cnf)
    ensures var claims := IssuedClaims(a, cnf);
            && claims.Obj?
            && claims.Get("iss") == Some(Str(a.iss)) && claims.Get("sub") == Some(Str(a.sub))
            && claims.Get("aud") == Some(Str(a.clientId)) && claims.Get("exp") == Some(Int(a.exp))
            && claims.Get("client_id") == Some(Str(a.clientId)) && claims.Get("scope") == Some(Str(a.scope))
            && claims.Get("iat") == Some(Int(a.iat)) && claims.Get("jti") == Some(Str(a.jti))
            && claims.Get("nbf") == None && claims.Get("cnf") == Some(Normal(cnf))
  {
    ClaimsAreDistinct(a);
    ClaimsFields(a);
    hide ClaimsMessage, WithConfirmation, Find, IsMessage;
    ReadAssigned(ClaimsMessage(a), cnf, "iss");
    ReadAssigned(ClaimsMessage(a), cnf, "sub");
    ReadAssigned(ClaimsMessage(a), cnf, "aud");
    ReadAssigned(ClaimsMessage(a), cnf, "exp");
    ReadAssigned(ClaimsMessage(a), cnf, "client_id");
    ReadAssigned(ClaimsMessage(a), cnf, "scope");
    ReadAssigned(ClaimsMessage(a), cnf, "iat");
    ReadAssigned(ClaimsMessage(a), cnf, "jti");
    ReadAssigned(ClaimsMessage(a), cnf, "nbf");
    ReadAssigned(ClaimsMessage(a), cnf, "cnf");
  }

  predicate Matches(expected: Option<string>, actual: string) {
    expected.None? || expected.value == actual
  }

  lemma RegisteredIff(a: AccessClaims, cnf: Value, issuer: Option<string>, audience: Option<string>, now: int)
    requires IsMessage(cnf)
    ensures var claims := IssuedClaims(a, cnf);
            claims.Obj? &&
            (ValidateRegisteredClaims(claims, issuer, audience, now).Ok? <==>
             now < a.exp && Matches(issuer, a.iss) && Matches(audience, a.clientId))
  {
    IssuedFields(a, cnf);
    hide IssuedClaims, Find;
  }

  /** The token that the issuer makes for these claims and this confirmation. */
  function AccessToken(c: Suite, a: AccessClaims, sk: Bytes, kid: string, cnf: Value): Result<string>
    requires IsMessage(cnf)
  {
    ClaimsAreDistinct(a);
    CreateAccessToken(c, ClaimsMessage(a), sk, kid, cnf)
  }

  /** An issued token is valid exactly while it has not expired and for the issuer and audience it names. */
  lemma IssuedTokenIsValidIff(c: Suite, a: AccessClaims, sk: Bytes, kid: string, cnf: Value, issuer: Option<string>,
                              audience: Option<string>, now: int)
    requires SignaturesCorrect(c) && |sk| == SIG_SECRET_KEY_SIZE && kid != "" && IsMessage(cnf)
    ensures var token := AccessToken(c, a, sk, kid, cnf);
            token.Ok? && token.value != "" &&
            var r := ValidateAccessToken(c, token.value, c.sigPublic(sk), issuer, audience, now);
            if now < a.exp && Matches(issuer, a.iss) && Matches(audience, a.clientId)
            then r == Ok(IssuedClaims(a, cnf)) else r.Raise?
  {
    ClaimsAreDistinct(a);
    SignedVerifies(c, WithConfirmation(ClaimsMessage(a), cnf), sk, kid, ACCESS_TOKEN_TYPE);
    RegisteredIff(a, cnf, issuer, audience, now);
    hide WithConfirmation, ClaimsMessage, SignJwt, VerifyJwt, ValidateRegisteredClaims, Normal, Find, Header, Matches, IsMessage,
         SignaturesCorrect;
    EmptyIsInvalid(c, c.sigPublic(sk));
  }

  lemma EmptyIsInvalid(c: Suite, pk: Bytes)
    ensures VerifyJwt(c, "", pk, ACCESS_TOKEN_TYPE).Raise?
  {
  }

  // ---------------------------------------------------------------------------------------------
  // When the endpoint accepts
  // ---------------------------------------------------------------------------------------------

  /** Both sessions have a binding id, and the ids have one digest. */
  predicate SameBinding(c: Suite, issuedOn: BoundSession, active: BoundSession) {
    var a, b := SessionBytes(issuedOn.sessionBindingId), SessionBytes(active.sessionBindingId);
    a.Ok? && b.Ok? && c.sha256(a.value) == c.sha256(b.value)
  }

  /**
    An access token bound to one session and presented on another is accepted exactly when it has
    not expired, issuer and audience match, and the two sessions' binding ids have the same digest.
  */
  lemma AcceptedIff(c: Suite, endpoint: Endpoint, a: AccessClaims, sk: Bytes, kid: string, issuedOn: BoundSession,
                    active: BoundSession, proof: Option<Proof>, verb: string, path: string, now: int)
    requires SignaturesCorrect(c) && |sk| == SIG_SECRET_KEY_SIZE && kid != "" && endpoint.issuerPk == c.sigPublic(sk)
    requires AccessTokenBinding(c, issuedOn).Ok?
    ensures IsMessage(AccessTokenBinding(c, issuedOn).value)
    ensures var token := AccessToken(c, a, sk, kid, AccessTokenBinding(c, issuedOn).value);
            token.Ok? &&
            var answer := HandleUserinfo(c, endpoint, token.value, Some(active), proof, verb, path, now);
            if !(now < a.exp && Matches(endpoint.issuer, a.iss) && Matches(endpoint.audience, a.clientId)) then answer == InvalidToken
            else if SameBinding(c, issuedOn, active) then answer == Accepted(IssuedClaims(a, AccessTokenBinding(c, issuedOn).value))
            else answer == BindingMismatch
  {
    var id := SessionBytes(issuedOn.sessionBindingId).value;
    var cnf := ExporterConfirmation(c, id);
    UnnormalFields(c, id);
    IssuedTokenIsValidIff(c, a, sk, kid, cnf, endpoint.issuer, endpoint.audience, now);
    IssuedFields(a, cnf);
    ExporterBindingIff(c, IssuedClaims(a, cnf), id, active, proof, verb, path);
    hide ExporterConfirmation, AccessToken, ValidateAccessToken, VerifyAccessTokenBinding, IssuedClaims, Find, Normal, SessionBytes,
         Matches, SignaturesCorrect, IsMessage;
  }

  /**
    An access token bound to a key is accepted, on whatever session, exactly when it is valid and the
    presented proof, made over this session's binding id, proves that key.
  */
  lemma PopAcceptedIff(c: Suite, endpoint: Endpoint, a: AccessClaims, sk: Bytes, kid: string, publicKey: Bytes,
                       active: BoundSession, proof: Option<Proof>, verb: string, path: string, now: int)
    requires SignaturesCorrect(c) && |sk| == SIG_SECRET_KEY_SIZE && kid != "" && endpoint.issuerPk == c.sigPublic(sk)
    requires |publicKey| == SIG_PUBLIC_KEY_SIZE
    ensures AccessTokenPop(publicKey).Ok? && IsMessage(AccessTokenPop(publicKey).value)
    ensures var token := AccessToken(c, a, sk, kid, AccessTokenPop(publicKey).value);
            token.Ok? &&
            (HandleUserinfo(c, endpoint, token.value, Some(active), proof, verb, path, now).Accepted? <==>
             now < a.exp && Matches(endpoint.issuer, a.iss) && Matches(endpoint.audience, a.clientId) &&
             VerifyProof(c, active, proof, verb, path) == Ok(Some(publicKey)))
  {
    hide AccessToken, ValidateAccessToken, VerifyAccessTokenBinding, IssuedClaims, Find, Normal, VerifyProof, Matches,
         SignaturesCorrect, IsMessage, AccessTokenPop;
    PopIsMessage(publicKey);
    var cnf := AccessTokenPop(publicKey).value;
    IssuedTokenIsValidIff(c, a, sk, kid, cnf, endpoint.issuer, endpoint.audience, now);
    IssuedFields(a, cnf);
    PopBindingIff(c, IssuedClaims(a, cnf), publicKey, active, proof, verb, path);
  }

  /** When the digest tells the two ids apart, "the same digest" is "the same id". */
  lemma SameBindingIff(c: Suite, issuedOn: BoundSession, active: BoundSession)
    requires SessionBytes(issuedOn.sessionBindingId).Ok? && SessionBytes(active.sessionBindingId).Ok?
    requires var a, b := SessionBytes(issuedOn.sessionBindingId).value, SessionBytes(active.sessionBindingId).value;
             c.sha256(a) == c.sha256(b) ==> a == b
    ensures SameBinding(c, issuedOn, active) <==>
            SessionBytes(issuedOn.sessionBindingId) == SessionBytes(active.sessionBindingId)
  {
  }

  /** For text ids, as a handshake leaves them, "the same id" is the same text. */
  lemma TextIdsAgreeIff(s: string, t: string)
    requires s != "" && t != ""
    ensures SessionBytes(Text(s)) == SessionBytes(Text(t)) <==> s == t
  {
    hide Utf8.Encode;
    if Utf8.Encode(s) == Utf8.Encode(t) {
      Utf8.Injective(s, t);
    }
  }

  // ---------------------------------------------------------------------------------------------
  // Any text at all
  // ---------------------------------------------------------------------------------------------

  /** The claims are for now, and for this issuer and audience. */
  predicate Current(claims: Value, issuer: Option<string>, audience: Option<string>, now: int)
    requires claims.Obj?
  {
    (claims.Get("exp").Some? ==> PythonInt(claims.Get("exp").value).Ok? && now < PythonInt(claims.Get("exp").value).value) &&
    (claims.Get("nbf").Some? ==> PythonInt(claims.Get("nbf").value).Ok? && PythonInt(claims.Get("nbf").value).value <= now) &&
    (issuer.Some? ==> claims.Get("iss") == Some(Str(issuer.value))) &&
    (audience.Some? ==> claims.Get("aud") == Some(Str(audience.value)))
  }

  lemma CurrentIff(claims: Value, issuer: Option<string>, audience: Option<string>, now: int)
    requires claims.Obj?
    ensures ValidateRegisteredClaims(claims, issuer, audience, now).Ok? <==> Current(claims, issuer, audience, now)
  {
    hide Find;
  }

  /** The token is one that the issuer signed over these claims. */
  ghost predicate Issued(c: Suite, token: string, issuerPk: Bytes, claims: Value) {
    exists p, header :: token == JoinJwt(p) && IsTokenOf(c, p, issuerPk, ACCESS_TOKEN_TYPE, header, claims)
  }

  lemma ValidatesIff(c: Suite, token: string, pk: Bytes, issuer: Option<string>, audience: Option<string>, now: int, claims: Value)
    ensures ValidateAccessToken(c, token, pk, issuer, audience, now) == Ok(claims) <==>
            Issued(c, token, pk, claims) && claims.Obj? && Current(claims, issuer, audience, now)
  {
    hide VerifyJwt, IsTokenOf, JoinJwt, ValidateRegisteredClaims, Current, Find;
    var verified := VerifyJwt(c, token, pk, ACCESS_TOKEN_TYPE);
    if verified.Ok? {
      VerifiesIff(c, token, pk, ACCESS_TOKEN_TYPE, verified.value.0, verified.value.1);
      CurrentIff(verified.value.1, issuer, audience, now);
    }
    if Issued(c, token, pk, claims) {
      var p, header :| token == JoinJwt(p) && IsTokenOf(c, p, pk, ACCESS_TOKEN_TYPE, header, claims);
      VerifiesIff(c, token, pk, ACCESS_TOKEN_TYPE, header, claims);
    }
  }

  /**
    Any text presented on any session, by anyone, is answered with these claims exactly when the issuer
    signed them, they are for now and for this endpoint, they name a subject, and they are bound to the
    active session or to a key that the presented proof proves.
  */
  lemma AnsweredIff(c: Suite, endpoint: Endpoint, token: string, session: Option<BoundSession>, proof: Option<Proof>,
                    verb: string, path: string, now: int, claims: Value)
    ensures HandleUserinfo(c, endpoint, token, session, proof, verb, path, now) == Accepted(claims) <==>
            Issued(c, token, endpoint.issuerPk, claims) && claims.Obj? && Current(claims, endpoint.issuer, endpoint.audience, now) &&
            claims.Get("sub").Some? && session.Some? && BoundTo(c, claims, session.value, proof, verb, path)
  {
    hide ValidateAccessToken, VerifyAccessTokenBinding, Issued, Current, Find, BoundTo;
    var validated := ValidateAccessToken(c, token, endpoint.issuerPk, endpoint.issuer, endpoint.audience, now);
    if validated.Ok? {
      ValidatesIff(c, token, endpoint.issuerPk, endpoint.issuer, endpoint.audience, now, validated.value);
      if session.Some? {
        BindingIff(c, validated.value, session.value, proof, verb, path);
      }
    }
    ValidatesIff(c, token, endpoint.issuerPk, endpoint.issuer, endpoint.audience, now, claims);
    EmptyIsNoToken(c, endpoint.issuerPk, claims);
  }

  /** Which refusal any other request is answered with. */
  lemma RefusedWith(c: Suite, endpoint: Endpoint, token: string, session: Option<BoundSession>, proof: Option<Proof>,
                    verb: string, path: string, now: int)
    ensures var answer := HandleUserinfo(c, endpoint, token, session, proof, verb, path, now);
            (answer == MissingSession <==> token != "" && session.None?) &&
            (answer == InvalidToken <==>
             token == "" ||
             (session.Some? &&
              !exists claims :: Issued(c, token, endpoint.issuerPk, claims) && claims.Obj? &&
                                Current(claims, endpoint.issuer, endpoint.audience, now))) &&
            (answer == BindingMismatch ==>
               session.Some? &&
               forall claims :: Issued(c, token, endpoint.issuerPk, claims) ==> !BoundTo(c, claims, session.value, proof, verb, path))
  {
    hide ValidateAccessToken, VerifyAccessTokenBinding, Issued, Current, Find, BoundTo;
    var validated := ValidateAccessToken(c, token, endpoint.issuerPk, endpoint.issuer, endpoint.audience, now);
    forall claims
      ensures validated == Ok(claims) <==>
              Issued(c, token, endpoint.issuerPk, claims) && claims.Obj? && Current(claims, endpoint.issuer, endpoint.audience, now)
    {
      ValidatesIff(c, token, endpoint.issuerPk, endpoint.issuer, endpoint.audience, now, claims);
    }
    if validated.Ok? && session.Some? {
      BindingIff(c, validated.value, session.value, proof, verb, path);
      forall claims | Issued(c, token, endpoint.issuerPk, claims) ensures claims == validated.value {
        OneMeaning(c, token, endpoint.issuerPk, claims, validated.value);
      }
    }
  }

  /** A token has one set of claims. */
  lemma OneMeaning(c: Suite, token: string, pk: Bytes, a: Value, b: Value)
    requires Issued(c, token, pk, a) && Issued(c, token, pk, b)
    ensures a == b
  {
    hide IsTokenOf, JoinJwt, VerifyJwt;
    var p, x :| token == JoinJwt(p) && IsTokenOf(c, p, pk, ACCESS_TOKEN_TYPE, x, a);
    var q, y :| token == JoinJwt(q) && IsTokenOf(c, q, pk, ACCESS_TOKEN_TYPE, y, b);
    VerifiesIff(c, token, pk, ACCESS_TOKEN_TYPE, x, a);
    VerifiesIff(c, token, pk, ACCESS_TOKEN_TYPE, y, b);
  }

  lemma EmptyIsNoToken(c: Suite, pk: Bytes, claims: Value)
    ensures !Issued(c, "", pk, claims)
  {
  }
}
