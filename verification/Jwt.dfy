/** Compact JSON Web Signatures (sections 3 and 7.1 of RFC 7515) with ML-DSA-65. */
module Jwt {
  import opened Wrappers
  import opened ByteStrings
  import opened CanonicalJson
  import opened Messages
  import opened Primitives
  import opened SessionBinding
  import opened Splitting
  import JsonText
  import Base64Url

  const ACCESS_TOKEN_TYPE := "at+jwt"

  datatype Parts = Parts(header: string, payload: string, signature: string)

  function SplitJwt(token: string): Result<Parts> {
    var parts := Split(token, '.');
    if |parts| != 3 then Raise(ValueError) else Ok(Parts(parts[0], parts[1], parts[2]))
  }

  function JoinJwt(p: Parts): string {
    p.header + ['.'] + p.payload + ['.'] + p.signature
  }

  /** Parts without a dot are recovered from the token. */
  lemma SplitOfJoinJwt(p: Parts)
    requires '.' !in p.header && '.' !in p.payload && '.' !in p.signature
    ensures SplitJwt(JoinJwt(p)) == Ok(p)
  {
    SplitFirst(p.header, '.', p.payload + ['.'] + p.signature);
    SplitFirst(p.payload, '.', p.signature);
    SplitWhole(p.signature, '.');
    assert JoinJwt(p) == p.header + ['.'] + (p.payload + ['.'] + p.signature);
  }

  function SigningInput(header: string, payload: string): Result<Bytes> {
    var text := header + ['.'] + payload;
    if IsAscii(text) then Ok(Ascii(text)) else Raise(ValueError)
  }

  function Header(kid: string, tokenType: string): (header: Value)
    ensures IsMessage(header) && header.Obj?
    ensures header.Get("alg") == Some(Str(SIGNATURE_ALGORITHM)) && header.Get("typ") == Some(Str(tokenType))
  {
    var header := Obj([Field("alg", Str(SIGNATURE_ALGORITHM)), Field("typ", Str(tokenType)), Field("kid", Str(kid))]);
    FindAt(header.fields, 0);
    FindAt(header.fields, 1);
    header
  }

  function SignJwt(c: Suite, claims: Value, sk: Bytes, kid: string, tokenType: string): Result<string>
    requires IsMessage(claims)
  {
    if !claims.Obj? then Raise(TypeError)
    else if kid == "" || tokenType == "" then Raise(ValueError)
    else
      var header := Base64Url.Encode(Serialize(Header(kid, tokenType)).value);
      var payload := Base64Url.Encode(Serialize(claims).value);
      var input :- SigningInput(header, payload);
      var signature :- Sign(c, sk, input);
      Ok(JoinJwt(Parts(header, payload, Base64Url.Encode(signature))))
  }

  /** The checks in order; an empty expected type is not checked. */
  function VerifyJwt(c: Suite, token: string, pk: Bytes, expectedType: string): (r: Result<(Value, Value)>)
    ensures r.Ok? ==> r.value.1.Obj?
  {
    var parts :- SplitJwt(token);
    var headerBytes :- Base64Url.Decode(parts.header);
    var header :- Deserialize(headerBytes);
    var payloadBytes :- Base64Url.Decode(parts.payload);
    var payload :- Deserialize(payloadBytes);
    if !header.Obj? || !payload.Obj? then Raise(ValueError)
    else if header.Get("alg") != Some(Str(SIGNATURE_ALGORITHM)) then Raise(ValueError)
    else if expectedType != "" && header.Get("typ") != Some(Str(expectedType)) then Raise(ValueError)
    else
      var input :- SigningInput(parts.header, parts.payload);
      var signature :- Base64Url.Decode(parts.signature);
      var valid :- Verify(c, pk, input, signature);
      if valid then Ok((header, payload)) else Raise(ValueError)
  }

  // ---------------------------------------------------------------------------------------------
  // What a verified token is
  // ---------------------------------------------------------------------------------------------

  /** The text is the base64url of the JSON of this value. */
  predicate Encodes(text: string, v: Value) {
    var data := Base64Url.Decode(text);
    data.Ok? && Deserialize(data.value) == Ok(v)
  }

  /** The signature part is one over the ASCII bytes of the first two parts, under this key. */
  ghost predicate SignedBy(c: Suite, p: Parts, pk: Bytes) {
    IsAscii(p.header + ['.'] + p.payload) &&
    exists signature :: Base64Url.Decode(p.signature) == Ok(signature) && |signature| == SIGNATURE_SIZE && |pk| == SIG_PUBLIC_KEY_SIZE &&
                        c.sigVerify(pk, Ascii(p.header + ['.'] + p.payload), signature)
  }

  /** Three parts: a header for this algorithm and type, these claims, and a signature over both. */
  ghost predicate IsTokenOf(c: Suite, p: Parts, pk: Bytes, expectedType: string, header: Value, claims: Value) {
    '.' !in p.header && '.' !in p.payload && '.' !in p.signature &&
    Encodes(p.header, header) && Encodes(p.payload, claims) && header.Obj? && claims.Obj? &&
    header.Get("alg") == Some(Str(SIGNATURE_ALGORITHM)) && (expectedType != "" ==> header.Get("typ") == Some(Str(expectedType))) &&
    SignedBy(c, p, pk)
  }

  lemma JoinOfThree(a: string, b: string, d: string)
    ensures Join([a, b, d], '.') == a + ['.'] + (b + ['.'] + d)
  {
    assert [a, b, d][1..] == [b, d] && [b, d][1..] == [d];
    assert Join([b, d], '.') == b + ['.'] + Join([d], '.');
  }

  lemma SplitJwtIff(token: string, p: Parts)
    ensures SplitJwt(token) == Ok(p) <==> token == JoinJwt(p) && '.' !in p.header && '.' !in p.payload && '.' !in p.signature
  {
    if SplitJwt(token) == Ok(p) {
      var parts := Split(token, '.');
      JoinOfSplit(token, '.');
      JoinOfThree(parts[0], parts[1], parts[2]);
      assert parts == [parts[0], parts[1], parts[2]];
      assert JoinJwt(p) == p.header + ['.'] + (p.payload + ['.'] + p.signature);
    } else if token == JoinJwt(p) && '.' !in p.header && '.' !in p.payload && '.' !in p.signature {
      SplitOfJoinJwt(p);
    }
  }

  lemma VerifiesParts(c: Suite, token: string, p: Parts, pk: Bytes, expectedType: string, header: Value, claims: Value)
    requires SplitJwt(token) == Ok(p) && '.' !in p.header && '.' !in p.payload && '.' !in p.signature
    ensures VerifyJwt(c, token, pk, expectedType) == Ok((header, claims)) <==> IsTokenOf(c, p, pk, expectedType, header, claims)
  {
    hide Find, Base64Url.Decode, Deserialize, JoinJwt, SplitJwt, Ascii, IsAscii;
  }

  /** Any text is verified to this header and these claims exactly when it is a token of them. */
  lemma VerifiesIff(c: Suite, token: string, pk: Bytes, expectedType: string, header: Value, claims: Value)
    ensures VerifyJwt(c, token, pk, expectedType) == Ok((header, claims)) <==>
            exists p :: token == JoinJwt(p) && IsTokenOf(c, p, pk, expectedType, header, claims)
  {
    hide JoinJwt, SplitJwt, IsTokenOf, VerifyJwt;
    if VerifyJwt(c, token, pk, expectedType) == Ok((header, claims)) {
      NeedsThreeParts(c, token, pk, expectedType);
      var p := SplitJwt(token).value;
      SplitJwtIff(token, p);
      VerifiesParts(c, token, p, pk, expectedType, header, claims);
    }
    forall p | token == JoinJwt(p) && IsTokenOf(c, p, pk, expectedType, header, claims)
      ensures VerifyJwt(c, token, pk, expectedType) == Ok((header, claims))
    {
      NoDots(c, p, pk, expectedType, header, claims);
      SplitJwtIff(token, p);
      VerifiesParts(c, token, p, pk, expectedType, header, claims);
    }
  }

  lemma NeedsThreeParts(c: Suite, token: string, pk: Bytes, expectedType: string)
    requires VerifyJwt(c, token, pk, expectedType).Ok?
    ensures SplitJwt(token).Ok?
  {
  }

  lemma NoDots(c: Suite, p: Parts, pk: Bytes, expectedType: string, header: Value, claims: Value)
    requires IsTokenOf(c, p, pk, expectedType, header, claims)
    ensures '.' !in p.header && '.' !in p.payload && '.' !in p.signature
  {
  }

  lemma EncodedHasNoDot(data: Bytes)
    ensures '.' !in Base64Url.Encode(data)
  {
    var s := Base64Url.Encode(data);
    forall i | 0 <= i < |s| ensures s[i] != '.' {
      assert Base64Url.IsDigit(s[i]);
    }
  }

  lemma EncodedSigningInput(header: Bytes, payload: Bytes)
    ensures SigningInput(Base64Url.Encode(header), Base64Url.Encode(payload)).Ok?
  {
  }

  /**
    A signed token verifies under the signer's public key and gives back the claims as JSON leaves
    them, for every message: through JSON, base64url, the three-part split and the signature.
  */
  lemma SignedVerifies(c: Suite, claims: Value, sk: Bytes, kid: string, tokenType: string)
    requires SignaturesCorrect(c) && IsMessage(claims) && claims.Obj? && kid != "" && tokenType != "" && |sk| == SIG_SECRET_KEY_SIZE
    ensures var token := SignJwt(c, claims, sk, kid, tokenType);
            token.Ok? &&
            VerifyJwt(c, token.value, c.sigPublic(sk), tokenType) == Ok((Normal(Header(kid, tokenType)), Normal(claims)))
  {
    var headerBytes, payloadBytes := Serialize(Header(kid, tokenType)).value, Serialize(claims).value;
    var header, payload := Base64Url.Encode(headerBytes), Base64Url.Encode(payloadBytes);
    EncodedSigningInput(headerBytes, payloadBytes);
    var input := SigningInput(header, payload).value;
    var signature := Sign(c, sk, input).value;
    var parts := Parts(header, payload, Base64Url.Encode(signature));
    EncodedHasNoDot(headerBytes);
    EncodedHasNoDot(payloadBytes);
    EncodedHasNoDot(signature);
    SplitOfJoinJwt(parts);
    Base64Url.RoundTrip(headerBytes);
    Base64Url.RoundTrip(payloadBytes);
    Base64Url.RoundTrip(signature);
    ReadHeader(kid, tokenType);
    RoundTrip(claims);
    hide Base64Url.Encode, Base64Url.Decode, Serialize, Deserialize, Normal, Find, SplitJwt, JoinJwt, SigningInput, Header;
    NormalOfObject(claims);
  }

  lemma NormalOfObject(message: Value)
    requires message.Obj?
    ensures Normal(message).Obj?
  {
  }

  lemma ReadHeader(kid: string, tokenType: string)
    ensures var header := Header(kid, tokenType);
            Deserialize(Serialize(header).value) == Ok(Normal(header)) && Normal(header).Obj? &&
            Normal(header).Get("alg") == Some(Str(SIGNATURE_ALGORITHM)) && Normal(header).Get("typ") == Some(Str(tokenType))
  {
    hide Header, Serialize, Deserialize, Find, IsMessage;
    RoundTrip(Header(kid, tokenType));
    GetOfNormal(Header(kid, tokenType), "alg");
    GetOfNormal(Header(kid, tokenType), "typ");
  }

  /** The confirmation claim is set in the claims, replacing one that is there. */
  function WithConfirmation(claims: Value, cnf: Value): (r: Value)
    requires IsMessage(claims) && claims.Obj? && IsMessage(cnf)
    ensures IsMessage(r) && r.Obj?
  {
    AssignDistinct(claims.fields, Field("cnf", cnf));
    var r := Obj(JsonText.Assign(claims.fields, Field("cnf", cnf)));
    assert forall i | 0 <= i < |r.fields| :: r.fields[i] in r.fields;
    r
  }

  function CreateAccessToken(c: Suite, claims: Value, sk: Bytes, kid: string, cnf: Value): Result<string>
    requires IsMessage(claims) && claims.Obj? && IsMessage(cnf)
  {
    SignJwt(c, WithConfirmation(claims, cnf), sk, kid, ACCESS_TOKEN_TYPE)
  }

  /** `int(v)` of a decoded value. */
  function PythonInt(v: Value): Result<int> {
    match v
    case Int(i) => Ok(i)
    case Bool(b) => Ok(if b then 1 else 0)
    case Str(_) => Raise(ValueError)
    case _ => Raise(TypeError)
  }

  function ValidateRegisteredClaims(claims: Value, issuer: Option<string>, audience: Option<string>, now: int): Result<()>
    requires claims.Obj?
  {
    var exp :- if claims.Get("exp").Some? then PythonInt(claims.Get("exp").value) else Ok(now + 1);
    if now >= exp then Raise(ValueError)
    else
      var nbf :- if claims.Get("nbf").Some? then PythonInt(claims.Get("nbf").value) else Ok(now);
      if now < nbf then Raise(ValueError)
      else if issuer.Some? && claims.Get("iss") != Some(Str(issuer.value)) then Raise(ValueError)
      else if audience.Some? && claims.Get("aud") != Some(Str(audience.value)) then Raise(ValueError)
      else Ok(())
  }

  function ValidateAccessToken(c: Suite, token: string, pk: Bytes, issuer: Option<string>, audience: Option<string>, now: int)
    : Result<Value>
  {
    var verified :- VerifyJwt(c, token, pk, ACCESS_TOKEN_TYPE);
    var _ :- ValidateRegisteredClaims(verified.1, issuer, audience, now);
    Ok(verified.1)
  }
}
