/** Claims and metadata that bind a token to a KEMTLS session, and the proof of a client-held key. */
module SessionBinding {
  import opened Wrappers
  import opened ByteStrings
  import opened CanonicalJson
  import opened Messages
  import opened Primitives
  import Base64Url
  import Http
  import Utf8
  import Handshake
  import RefreshTokens

  const BINDING_METHOD := "kemtls-exporter-v1"
  const POP_BINDING_METHOD := "kemtls-pop-v1"
  const SIGNATURE_ALGORITHM := "ML-DSA-65"

  /** An attribute of a session object: absent (or of no use), bytes, or text. */
  datatype Attribute = Absent | Raw(data: Bytes) | Text(s: string)

  /** The two attributes of a session object that tokens are bound to. */
  datatype BoundSession = BoundSession(sessionBindingId: Attribute, refreshBindingId: Attribute)

  /** A session after the handshake: both ids are base64url text. */
  function OfHandshake(session: Handshake.Session): BoundSession {
    match session.keys
    case None => BoundSession(Absent, Absent)
    case Some(k) => BoundSession(Text(k.sessionBindingId), Text(k.refreshBindingId))
  }

  /** The bytes of an attribute, which must be populated. */
  function SessionBytes(a: Attribute): Result<Bytes> {
    match a
    case Absent => Raise(ValueError)
    case Raw(data) => if data == [] then Raise(ValueError) else Ok(data)
    case Text(s) => if s == "" then Raise(ValueError) else Ok(Utf8.Encode(s))
  }

  /** The digest by which tokens name a binding id. */
  function BindingHash(c: Suite, bindingId: Bytes): string {
    Base64Url.Encode(c.sha256(bindingId))
  }

  function ExporterConfirmation(c: Suite, bindingId: Bytes): Value {
    Obj([Field("kmt", Str(BINDING_METHOD)), Field("kbh", Str(BindingHash(c, bindingId)))])
  }

  /** The value of the cnf claim that binds an access token to a session. */
  function AccessTokenBinding(c: Suite, session: BoundSession): Result<Value> {
    var bindingId :- SessionBytes(session.sessionBindingId);
    Ok(ExporterConfirmation(c, bindingId))
  }

  function PublicKeyToJwk(publicKey: Bytes): Result<Value> {
    if |publicKey| != SIG_PUBLIC_KEY_SIZE then Raise(ValueError)
    else
      Ok(Obj([Field("kty", Str("AKP")), Field("alg", Str(SIGNATURE_ALGORITHM)), Field("use", Str("sig")),
              Field("x", Str(Base64Url.Encode(publicKey)))]))
  }

  function JwkToPublicKey(jwk: Value): Result<Bytes>
    requires jwk.Obj?
  {
    if jwk.Get("kty") != Some(Str("AKP")) then Raise(ValueError)
    else if jwk.Get("alg") != Some(Str(SIGNATURE_ALGORITHM)) then Raise(ValueError)
    else if jwk.Get("x").None? then Raise(ValueError)
    else if jwk.Get("use").Some? && jwk.Get("use") != Some(Str("sig")) then Raise(ValueError)
    else
      match jwk.Get("x").value
      case Str(x) =>
        var publicKey :- Base64Url.Decode(x);
        if |publicKey| != SIG_PUBLIC_KEY_SIZE then Raise(ValueError) else Ok(publicKey)
      case _ => Raise(TypeError)
  }

  /** The value of the cnf claim that binds an access token to a key the client holds. */
  function AccessTokenPop(publicKey: Bytes): Result<Value> {
    var jwk :- PublicKeyToJwk(publicKey);
    Ok(Obj([Field("kmt", Str(POP_BINDING_METHOD)), Field("jwk", jwk)]))
  }

  // ---------------------------------------------------------------------------------------------
  // Proof of the key
  // ---------------------------------------------------------------------------------------------

  datatype Proof = Proof(publicKey: Bytes, signature: Bytes)

  function Upper(s: string): string {
    seq(|s|, i requires 0 <= i < |s| => if 'a' <= s[i] <= 'z' then (s[i] as int - 32) as char else s[i])
  }

  predicate IsPythonSpace(ch: char) {
    ch == ' ' || '\t' <= ch <= '\r' || 0x1C <= ch as int <= 0x1F
  }

  function Strip(s: string): string {
    if s != "" && IsPythonSpace(s[0]) then Strip(s[1..])
    else if s != "" && IsPythonSpace(s[|s| - 1]) then Strip(s[..|s| - 1])
    else s
  }

  /** The method and the path as the proof names them. */
  function ProofMethod(verb: string): string {
    if Upper(verb) == "" then "GET" else Upper(verb)
  }

  function ProofPath(path: string): string {
    if Strip(path) == "" then "/" else Strip(path)
  }

  function ProofFields(bindingId: Bytes, verb: string, path: string): (message: Value)
    ensures IsMessage(message) && message.Obj?
  {
    Obj([Field("context", Str(POP_BINDING_METHOD)), Field("method", Str(ProofMethod(verb))), Field("path", Str(ProofPath(path))),
         Field("session_binding_id", Str(Base64Url.Encode(bindingId)))])
  }

  function ProofMessage(session: BoundSession, verb: string, path: string): Result<Bytes> {
    var bindingId :- SessionBytes(session.sessionBindingId);
    Serialize(ProofFields(bindingId, verb, path))
  }

  /** The key that the proof proves, None when there is no valid proof; wrong sizes raise. */
  function VerifyProof(c: Suite, session: BoundSession, proof: Option<Proof>, verb: string, path: string): Result<Option<Bytes>> {
    if proof.None? then Ok(None)
    else
      match ProofMessage(session, verb, path)
      case Raise(_) => Ok(None)
      case Ok(message) =>
        var valid :- Verify(c, proof.value.publicKey, message, proof.value.signature);
        Ok(if valid then Some(proof.value.publicKey) else None)
  }

  /** A proof of this key: a signature with it over the message for this session, method and path. */
  predicate Proves(c: Suite, session: BoundSession, proof: Option<Proof>, verb: string, path: string, publicKey: Bytes) {
    var message := ProofMessage(session, verb, path);
    message.Ok? && proof.Some? && proof.value.publicKey == publicKey &&
    |publicKey| == SIG_PUBLIC_KEY_SIZE && |proof.value.signature| == SIGNATURE_SIZE &&
    c.sigVerify(publicKey, message.value, proof.value.signature)
  }

  /** A key is taken as proved exactly with a proof of it. */
  lemma ProvesIff(c: Suite, session: BoundSession, proof: Option<Proof>, verb: string, path: string, publicKey: Bytes)
    ensures VerifyProof(c, session, proof, verb, path) == Ok(Some(publicKey)) <==> Proves(c, session, proof, verb, path, publicKey)
  {
    hide ProofMessage;
  }

  /** The case of the method does not matter, nor does space around the path; absent ones are GET and the root. */
  lemma ProofNames(verb: string, path: string)
    ensures ProofMethod(Http.Lower(verb)) == ProofMethod(verb) && ProofMethod("") == "GET"
    ensures ProofPath([' '] + path) == ProofPath(path) && ProofPath("") == "/"
    ensures forall i | 0 <= i < |verb| && 'a' <= verb[i] <= 'z' :: ProofMethod(verb)[i] as int == verb[i] as int - 32
  {
    assert Upper(Http.Lower(verb)) == Upper(verb);
    assert ([' '] + path)[1..] == path;
  }

  /** One message, one binding id, method and path: a proof made for one request is none for another. */
  lemma ProofMessageDetermines(a: BoundSession, verbA: string, pathA: string, b: BoundSession, verbB: string, pathB: string)
    requires ProofMessage(a, verbA, pathA).Ok? && ProofMessage(a, verbA, pathA) == ProofMessage(b, verbB, pathB)
    ensures SessionBytes(a.sessionBindingId) == SessionBytes(b.sessionBindingId)
    ensures ProofMethod(verbA) == ProofMethod(verbB) && ProofPath(pathA) == ProofPath(pathB)
  {
    hide SessionBytes, Serialize, ProofFields, ProofMethod, ProofPath, IsMessage, Base64Url.Encode, Find;
    var x, y := SessionBytes(a.sessionBindingId).value, SessionBytes(b.sessionBindingId).value;
    SerializeInjective(ProofFields(x, verbA, pathA), ProofFields(y, verbB, pathB));
    ProofReads(x, verbA, pathA);
    ProofReads(y, verbB, pathB);
    Base64Url.EncodeInjective(x, y);
  }

  lemma ProofReads(bindingId: Bytes, verb: string, path: string)
    ensures var message := Normal(ProofFields(bindingId, verb, path));
            message.Obj? && message.Get("method") == Some(Str(ProofMethod(verb))) && message.Get("path") == Some(Str(ProofPath(path))) &&
            message.Get("session_binding_id") == Some(Str(Base64Url.Encode(bindingId)))
  {
    hide ProofMethod, ProofPath, Base64Url.Encode;
    var message := ProofFields(bindingId, verb, path);
    FindAt(message.fields, 1);
    FindAt(message.fields, 2);
    FindAt(message.fields, 3);
    GetOfNormal(message, "method");
    GetOfNormal(message, "path");
    GetOfNormal(message, "session_binding_id");
  }

  // ---------------------------------------------------------------------------------------------
  // Verifying
  // ---------------------------------------------------------------------------------------------

  /** The key that the proof proves must be the one in the token. */
  function VerifyPop(c: Suite, cnf: Value, session: BoundSession, proof: Option<Proof>, verb: string, path: string): Result<bool>
    requires cnf.Obj?
  {
    var jwk := cnf.Get("jwk");
    if jwk.None? || !jwk.value.Obj? || JwkToPublicKey(jwk.value).Raise? then Ok(false)
    else
      var presented :- VerifyProof(c, session, proof, verb, path);
      Ok(presented == Some(JwkToPublicKey(jwk.value).value))
  }

  function VerifyAccessTokenBinding(c: Suite, claims: Value, session: BoundSession, proof: Option<Proof>, verb: string, path: string)
    : Result<bool>
  {
    if !claims.Obj? || claims.Get("cnf").None? || !claims.Get("cnf").value.Obj? then Ok(false)
    else
      var cnf := claims.Get("cnf").value;
      if cnf.Get("kmt") == Some(Str(POP_BINDING_METHOD)) then VerifyPop(c, cnf, session, proof, verb, path)
      else if cnf.Get("kmt") != Some(Str(BINDING_METHOD)) then Ok(false)
      else
        match AccessTokenBinding(c, session)
        case Raise(_) => Ok(false)
        case Ok(expected) => Ok(cnf.Get("kbh") == expected.Get("kbh"))
  }

  function RefreshBinding(c: Suite, session: BoundSession): Result<RefreshTokens.Meta> {
    var bindingId :- SessionBytes(session.refreshBindingId);
    Ok(map["binding_method" := BINDING_METHOD, "binding_hash" := BindingHash(c, bindingId)])
  }

  function VerifyRefreshBinding(c: Suite, stored: RefreshTokens.Meta, session: BoundSession): bool {
    "binding_method" in stored && stored["binding_method"] == BINDING_METHOD &&
    var expected := RefreshBinding(c, session);
    expected.Ok? && "binding_hash" in stored && stored["binding_hash"] == expected.value["binding_hash"]
  }

  /** Equal hashes as text, equal digests. */
  lemma BindingHashIff(c: Suite, a: Bytes, b: Bytes)
    ensures BindingHash(c, a) == BindingHash(c, b) <==> c.sha256(a) == c.sha256(b)
  {
    if BindingHash(c, a) == BindingHash(c, b) {
      Base64Url.EncodeInjective(c.sha256(a), c.sha256(b));
    }
  }

  /** Metadata built on one session verifies on another exactly when their refresh ids have one digest. */
  lemma RefreshBindingIff(c: Suite, stored: BoundSession, active: BoundSession)
    requires RefreshBinding(c, stored).Ok?
    ensures VerifyRefreshBinding(c, RefreshBinding(c, stored).value, active) <==>
            SessionBytes(active.refreshBindingId).Ok? &&
            c.sha256(SessionBytes(stored.refreshBindingId).value) == c.sha256(SessionBytes(active.refreshBindingId).value)
  {
    hide SessionBytes, BindingHash;
    if SessionBytes(active.refreshBindingId).Ok? {
      BindingHashIff(c, SessionBytes(stored.refreshBindingId).value, SessionBytes(active.refreshBindingId).value);
    }
  }

  /** Metadata that verifies is the metadata the active session would get, so rotation keeps it as it is. */
  lemma VerifiedIsRebuilt(c: Suite, stored: RefreshTokens.Meta, active: BoundSession)
    requires VerifyRefreshBinding(c, stored, active) && stored.Keys == {"binding_method", "binding_hash"}
    ensures RefreshBinding(c, active) == Ok(stored)
  {
    hide SessionBytes, BindingHash;
    var rebuilt := RefreshBinding(c, active).value;
    assert rebuilt["binding_method"] == stored["binding_method"] && rebuilt["binding_hash"] == stored["binding_hash"];
    assert rebuilt.Keys == stored.Keys;
    assert rebuilt == stored;
  }

  /** The cnf claim, after JSON has been through it, verifies on a session exactly when the digests agree. */
  lemma ExporterBindingIff(c: Suite, claims: Value, bindingId: Bytes, active: BoundSession, proof: Option<Proof>,
                           verb: string, path: string)
    requires claims.Obj? && claims.Get("cnf") == Some(Normal(ExporterConfirmation(c, bindingId)))
    ensures VerifyAccessTokenBinding(c, claims, active, proof, verb, path) ==
            Ok(SessionBytes(active.sessionBindingId).Ok? && c.sha256(bindingId) == c.sha256(SessionBytes(active.sessionBindingId).value))
  {
    var cnf := ExporterConfirmation(c, bindingId);
    ConfirmationFields(c, bindingId);
    hide Normal, Find, SessionBytes, BindingHash, VerifyProof, JwkToPublicKey, ExporterConfirmation;
    if SessionBytes(active.sessionBindingId).Ok? {
      var id := SessionBytes(active.sessionBindingId).value;
      BindingHashIff(c, bindingId, id);
      UnnormalFields(c, id);
    }
    assert BINDING_METHOD[7] != POP_BINDING_METHOD[7];
  }

  lemma UnnormalFields(c: Suite, bindingId: Bytes)
    ensures var cnf := ExporterConfirmation(c, bindingId);
            IsMessage(cnf) && cnf.Get("kmt") == Some(Str(BINDING_METHOD)) && cnf.Get("kbh") == Some(Str(BindingHash(c, bindingId)))
  {
    var fields := ExporterConfirmation(c, bindingId).fields;
    assert fields[0].key[1] != fields[1].key[1];
    FindAt(fields, 0);
    FindAt(fields, 1);
  }

  lemma ConfirmationFields(c: Suite, bindingId: Bytes)
    ensures var cnf := Normal(ExporterConfirmation(c, bindingId));
            cnf.Obj? && cnf.Get("kmt") == Some(Str(BINDING_METHOD)) && cnf.Get("kbh") == Some(Str(BindingHash(c, bindingId)))
  {
    UnnormalFields(c, bindingId);
    hide Find, BindingHash;
    GetOfNormal(ExporterConfirmation(c, bindingId), "kmt");
    GetOfNormal(ExporterConfirmation(c, bindingId), "kbh");
  }

  lemma JwkRoundTrip(publicKey: Bytes)
    requires |publicKey| == SIG_PUBLIC_KEY_SIZE
    ensures var jwk := PublicKeyToJwk(publicKey).value;
            IsMessage(jwk) && Normal(jwk).Obj? && JwkToPublicKey(Normal(jwk)) == Ok(publicKey)
  {
    hide Base64Url.Encode, Base64Url.Decode;
    var jwk := PublicKeyToJwk(publicKey).value;
    JwkFields(publicKey);
    Base64Url.RoundTrip(publicKey);
    hide Find, PublicKeyToJwk, Normal, IsMessage;
    JwkIsObject(jwk);
    GetOfNormal(jwk, "kty");
    GetOfNormal(jwk, "alg");
    GetOfNormal(jwk, "use");
    GetOfNormal(jwk, "x");
    NormalOfText();
  }

  lemma JwkIsObject(v: Value)
    requires v.Obj?
    ensures Normal(v).Obj?
  {
  }

  lemma NormalOfText()
    ensures forall s :: Normal(Str(s)) == Str(s)
  {
  }

  lemma JwkFields(publicKey: Bytes)
    requires |publicKey| == SIG_PUBLIC_KEY_SIZE
    ensures var jwk := PublicKeyToJwk(publicKey).value;
            jwk.Obj? && IsMessage(jwk) && jwk.Get("kty") == Some(Str("AKP")) && jwk.Get("alg") == Some(Str(SIGNATURE_ALGORITHM)) &&
            jwk.Get("use") == Some(Str("sig")) && jwk.Get("x") == Some(Str(Base64Url.Encode(publicKey)))
  {
    hide Base64Url.Encode;
    var fields := PublicKeyToJwk(publicKey).value.fields;
    assert |fields[3].key| == 1 && fields[0].key[0] == 'k' && fields[1].key[0] == 'a' && fields[2].key[0] == 'u';
    FindAt(fields, 0);
    FindAt(fields, 1);
    FindAt(fields, 2);
    FindAt(fields, 3);
  }

  /** A token bound to a key verifies exactly when the presented proof proves that key. */
  lemma PopBindingIff(c: Suite, claims: Value, publicKey: Bytes, active: BoundSession, proof: Option<Proof>, verb: string, path: string)
    requires |publicKey| == SIG_PUBLIC_KEY_SIZE
    requires claims.Obj? && claims.Get("cnf") == Some(Normal(AccessTokenPop(publicKey).value))
    ensures VerifyAccessTokenBinding(c, claims, active, proof, verb, path) ==
            var presented := VerifyProof(c, active, proof, verb, path);
            if presented.Raise? then Raise(presented.exception) else Ok(presented.value == Some(publicKey))
  {
    hide Find, VerifyProof, JwkToPublicKey, PublicKeyToJwk, Normal;
    JwkRoundTrip(publicKey);
    PopFields(publicKey);
  }

  lemma PopIsMessage(publicKey: Bytes)
    requires |publicKey| == SIG_PUBLIC_KEY_SIZE
    ensures AccessTokenPop(publicKey).Ok? && IsMessage(AccessTokenPop(publicKey).value)
  {
    hide Base64Url.Encode;
    JwkFields(publicKey);
    var cnf := AccessTokenPop(publicKey).value;
    assert cnf.fields[0].key[0] == 'k' && cnf.fields[1].key[0] == 'j';
  }

  lemma PopFields(publicKey: Bytes)
    requires |publicKey| == SIG_PUBLIC_KEY_SIZE
    ensures PublicKeyToJwk(publicKey).Ok?
    ensures var cnf := Normal(AccessTokenPop(publicKey).value);
            cnf.Obj? && cnf.Get("kmt") == Some(Str(POP_BINDING_METHOD)) && cnf.Get("jwk") == Some(Normal(PublicKeyToJwk(publicKey).value))
  {
    hide Base64Url.Encode;
    JwkFields(publicKey);
    var cnf := AccessTokenPop(publicKey).value;
    assert cnf.fields[0].key[0] == 'k' && cnf.fields[1].key[0] == 'j';
    FindAt(cnf.fields, 0);
    FindAt(cnf.fields, 1);
    GetOfNormal(cnf, "kmt");
    GetOfNormal(cnf, "jwk");
  }

  // ---------------------------------------------------------------------------------------------
  // What verifies, among all claims and metadata
  // ---------------------------------------------------------------------------------------------

  /** A JWK of this public key. */
  predicate IsJwkOf(jwk: Value, publicKey: Bytes) {
    jwk.Obj? && jwk.Get("kty") == Some(Str("AKP")) && jwk.Get("alg") == Some(Str(SIGNATURE_ALGORITHM)) &&
    (jwk.Get("use") == None || jwk.Get("use") == Some(Str("sig"))) && |publicKey| == SIG_PUBLIC_KEY_SIZE &&
    jwk.Get("x").Some? && jwk.Get("x").value.Str? && Base64Url.Decode(jwk.Get("x").value.s) == Ok(publicKey)
  }

  lemma JwkIff(jwk: Value, publicKey: Bytes)
    requires jwk.Obj?
    ensures JwkToPublicKey(jwk) == Ok(publicKey) <==> IsJwkOf(jwk, publicKey)
  {
    hide Find, Base64Url.Decode;
  }

  /** The cnf claim names the digest of this session's id, or a key that the presented proof proves. */
  ghost predicate BoundTo(c: Suite, claims: Value, session: BoundSession, proof: Option<Proof>, verb: string, path: string) {
    claims.Obj? && claims.Get("cnf").Some? && claims.Get("cnf").value.Obj? &&
    var cnf := claims.Get("cnf").value;
    (cnf.Get("kmt") == Some(Str(BINDING_METHOD)) && SessionBytes(session.sessionBindingId).Ok? &&
     cnf.Get("kbh") == Some(Str(BindingHash(c, SessionBytes(session.sessionBindingId).value)))) ||
    (cnf.Get("kmt") == Some(Str(POP_BINDING_METHOD)) &&
     exists publicKey :: cnf.Get("jwk").Some? && IsJwkOf(cnf.Get("jwk").value, publicKey) &&
                         Proves(c, session, proof, verb, path, publicKey))
  }

  /** Any claims at all verify on a session exactly when they are bound to it or to a key that is proved. */
  lemma BindingIff(c: Suite, claims: Value, session: BoundSession, proof: Option<Proof>, verb: string, path: string)
    ensures VerifyAccessTokenBinding(c, claims, session, proof, verb, path) == Ok(true) <==>
            BoundTo(c, claims, session, proof, verb, path)
  {
    hide Find, SessionBytes, BindingHash, VerifyProof, JwkToPublicKey, ExporterConfirmation, Proves, IsJwkOf;
    forall publicKey
      ensures VerifyProof(c, session, proof, verb, path) == Ok(Some(publicKey)) <==> Proves(c, session, proof, verb, path, publicKey)
    {
      ProvesIff(c, session, proof, verb, path, publicKey);
    }
    if claims.Obj? && claims.Get("cnf").Some? && claims.Get("cnf").value.Obj? {
      var jwk := claims.Get("cnf").value.Get("jwk");
      forall publicKey | jwk.Some?
        ensures IsJwkOf(jwk.value, publicKey) <==> jwk.value.Obj? && JwkToPublicKey(jwk.value) == Ok(publicKey)
      {
        JwkOrNot(jwk.value, publicKey);
      }
    }
    if SessionBytes(session.sessionBindingId).Ok? {
      UnnormalFields(c, SessionBytes(session.sessionBindingId).value);
    }
    assert BINDING_METHOD[7] != POP_BINDING_METHOD[7];
  }

  lemma JwkOrNot(jwk: Value, publicKey: Bytes)
    ensures IsJwkOf(jwk, publicKey) <==> jwk.Obj? && JwkToPublicKey(jwk) == Ok(publicKey)
  {
    hide JwkToPublicKey, Base64Url.Decode, Find;
    if jwk.Obj? {
      JwkIff(jwk, publicKey);
    }
  }

  /** Any metadata verifies on a session exactly when it names this method and the digest of the session's id. */
  lemma RefreshMetaIff(c: Suite, stored: RefreshTokens.Meta, session: BoundSession)
    ensures VerifyRefreshBinding(c, stored, session) <==>
            SessionBytes(session.refreshBindingId).Ok? &&
            "binding_method" in stored && stored["binding_method"] == "kemtls-exporter-v1" &&
            "binding_hash" in stored && stored["binding_hash"] == Base64Url.Encode(c.sha256(SessionBytes(session.refreshBindingId).value))
  {
    hide SessionBytes, Base64Url.Encode;
  }
}
