/** Certificates signed over their canonical body. */
module Certificates {
  import opened Wrappers
  import opened ByteStrings
  import opened CanonicalJson
  import opened Messages
  import opened Primitives
  import Base64Url

  /** The body of a certificate, before the signature is attached. */
  function Body(subject: string, kemPk: Bytes, issuer: string, validFrom: int, validTo: int): (body: Value)
    ensures IsMessage(body) && body.Obj?
  {
    Obj([Field("subject", Str(subject)),
         Field("kem_public_key", Str(Base64Url.Encode(kemPk))),
         Field("issuer", Str(issuer)),
         Field("valid_from", Int(validFrom)),
         Field("valid_to", Int(validTo)),
         Field("key_usage", Str("kemtls"))])
  }

  function Create(c: Suite, subject: string, kemPk: Bytes, caSk: Bytes, issuer: string, validFrom: int, validTo: int)
    : (r: Result<Value>)
  {
    var body := Body(subject, kemPk, issuer, validFrom, validTo);
    var signature :- Sign(c, caSk, Serialize(body).value);
    Ok(Obj(body.fields + [Field("signature", Str(Base64Url.Encode(signature)))]))
  }

  function Without(fields: seq<Field>, key: string): (r: seq<Field>)
    ensures forall f | f in r :: f in fields && f.key != key
  {
    if fields == [] then []
    else if fields[0].key == key then Without(fields[1..], key)
    else [fields[0]] + Without(fields[1..], key)
  }

  lemma {:induction false} WithoutDistinct(fields: seq<Field>, key: string)
    requires Distinct(fields)
    ensures Distinct(Without(fields, key))
  {
    if fields != [] {
      WithoutDistinct(fields[1..], key);
      var r := Without(fields[1..], key);
      forall j | 0 <= j < |r| ensures fields[0].key != r[j].key {
        assert r[j] in r;
      }
    }
  }

  lemma WithoutIsMessage(cert: Value, key: string)
    requires IsMessage(cert) && cert.Obj?
    ensures IsMessage(Obj(Without(cert.fields, key)))
  {
    WithoutDistinct(cert.fields, key);
    var r := Without(cert.fields, key);
    forall i | 0 <= i < |r| ensures IsMessage(r[i].val) {
      assert r[i] in r;
    }
  }

  /** `base64url_decode(d[key])` for a text value. */
  function DecodeText(v: Option<Value>): Result<Bytes> {
    match v
    case None => Raise(KeyError)
    case Some(Str(s)) => Base64Url.Decode(s)
    case Some(_) => Raise(TypeError)
  }

  /** A value that Python compares with an integer. */
  function AsInt(v: Option<Value>): Result<int> {
    match v
    case None => Raise(KeyError)
    case Some(Int(i)) => Ok(i)
    case Some(Bool(b)) => Ok(if b then 1 else 0)
    case Some(_) => Raise(TypeError)
  }

  /** Signature, time window, key usage and identity, in the order the program checks them. */
  function Validate(c: Suite, cert: Value, caPk: Bytes, identity: string, now: int): Result<Bytes>
    requires IsMessage(cert)
  {
    if !cert.Obj? then Raise(TypeError)
    else if cert.Get("signature").None? then Raise(ValueError)
    else
      var signature :- DecodeText(cert.Get("signature"));
      WithoutIsMessage(cert, "signature");
      var verified :- Verify(c, caPk, Serialize(Obj(Without(cert.fields, "signature"))).value, signature);
      if !verified then Raise(ValueError)
      else
        var validFrom :- AsInt(cert.Get("valid_from"));
        if now < validFrom then Raise(ValueError)
        else
          var validTo :- AsInt(cert.Get("valid_to"));
          if now > validTo then Raise(ValueError)
          else if cert.Get("key_usage") != Some(Str("kemtls")) then Raise(ValueError)
          else if cert.Get("subject").None? then Raise(KeyError)
          else if cert.Get("subject") != Some(Str(identity)) then Raise(ValueError)
          else DecodeText(cert.Get("kem_public_key"))
  }

  // ---------------------------------------------------------------------------------------------
  // What an accepted certificate is
  // ---------------------------------------------------------------------------------------------

  /** The entry is text that decodes to these bytes. */
  predicate Carries(cert: Value, key: string, data: Bytes)
    requires cert.Obj?
  {
    cert.Get(key).Some? && cert.Get(key).value.Str? && Base64Url.Decode(cert.Get(key).value.s) == Ok(data)
  }

  /** The canonical bytes of all entries but the signature. */
  function SignedBytes(cert: Value): Bytes
    requires IsMessage(cert) && cert.Obj?
  {
    WithoutIsMessage(cert, "signature");
    Serialize(Obj(Without(cert.fields, "signature"))).value
  }

  /** The signature it carries is one over those bytes under this key. */
  ghost predicate SignedUnder(c: Suite, cert: Value, caPk: Bytes)
    requires IsMessage(cert) && cert.Obj?
  {
    exists signature :: Carries(cert, "signature", signature) && |signature| == SIGNATURE_SIZE && |caPk| == SIG_PUBLIC_KEY_SIZE &&
                        c.sigVerify(caPk, SignedBytes(cert), signature)
  }

  predicate InWindow(cert: Value, now: int)
    requires cert.Obj?
  {
    var validFrom, validTo := AsInt(cert.Get("valid_from")), AsInt(cert.Get("valid_to"));
    validFrom.Ok? && validTo.Ok? && validFrom.value <= now <= validTo.value
  }

  /** A certificate that vouches for this key: signed by the CA, valid now, for this use and this identity. */
  ghost predicate Vouches(c: Suite, cert: Value, caPk: Bytes, identity: string, now: int, publicKey: Bytes)
    requires IsMessage(cert)
  {
    cert.Obj? && SignedUnder(c, cert, caPk) && InWindow(cert, now) && cert.Get("key_usage") == Some(Str("kemtls")) &&
    cert.Get("subject") == Some(Str(identity)) && Carries(cert, "kem_public_key", publicKey)
  }

  /** Any decoded value is accepted for a key exactly when it vouches for that key. */
  lemma ValidatesIff(c: Suite, cert: Value, caPk: Bytes, identity: string, now: int, publicKey: Bytes)
    requires IsMessage(cert)
    ensures Validate(c, cert, caPk, identity, now) == Ok(publicKey) <==> Vouches(c, cert, caPk, identity, now, publicKey)
  {
    hide IsMessage, Find, Base64Url.Decode, Serialize, Without;
    if cert.Obj? && cert.Get("signature").Some? && DecodeText(cert.Get("signature")).Ok? {
      var signature := DecodeText(cert.Get("signature")).value;
      assert Carries(cert, "signature", signature);
    }
  }

  /** What is signed has every other entry of the certificate as it is. */
  lemma {:induction false} WithoutReads(fields: seq<Field>, key: string, k: string)
    ensures Find(Without(fields, key), k) == if k == key then None else Find(fields, k)
  {
    if fields != [] {
      WithoutReads(fields[1..], key, k);
    }
  }

  // ---------------------------------------------------------------------------------------------
  // A created certificate survives nesting, serialisation and decoding
  // ---------------------------------------------------------------------------------------------

  lemma {:induction false} WithoutOfSorted(fields: seq<Field>, key: string)
    requires Sorted(fields)
    ensures Sorted(Without(fields, key))
  {
    if fields != [] {
      WithoutOfSorted(fields[1..], key);
      var r := Without(fields[1..], key);
      forall j | 0 <= j < |r| ensures Less(fields[0].key, r[j].key) {
        assert r[j] in r;
      }
    }
  }

  lemma {:induction false} WithoutMember(fields: seq<Field>, key: string, f: Field)
    requires f in fields && f.key != key
    ensures f in Without(fields, key)
  {
    if f != fields[0] {
      WithoutMember(fields[1..], key, f);
    }
  }

  lemma {:induction false} WithoutLength(fields: seq<Field>, key: string)
    requires Distinct(fields)
    ensures |Without(fields, key)| == |fields| - (if Find(fields, key).Some? then 1 else 0)
  {
    if fields != [] {
      WithoutLength(fields[1..], key);
      if fields[0].key == key {
        FindNone(fields[1..], key);
      }
    }
  }

  lemma WithoutNormalFields(fields: seq<Field>, key: string, f: Field)
    requires f in NormalFields(Without(fields, key))
    ensures f in Without(Sort(NormalFields(fields)), key)
  {
    var w, nf := Without(fields, key), NormalFields(fields);
    var i :| 0 <= i < |w| && NormalFields(w)[i] == f;
    assert w[i] in w;
    var k :| 0 <= k < |fields| && fields[k] == w[i];
    assert nf[k] == f;
    SortContents(nf);
    MemberOfMultiset(Sort(nf), nf, f);
    WithoutMember(Sort(nf), key, f);
  }

  /** Removing a key commutes with normalising. */
  lemma NormalWithout(cert: Value, key: string)
    requires IsMessage(cert) && cert.Obj?
    ensures Normal(Obj(Without(cert.fields, key))) == Obj(Without(Normal(cert).fields, key))
  {
    var nw := NormalFields(Without(cert.fields, key));
    var nf := NormalFields(cert.fields);
    WithoutDistinct(cert.fields, key);
    SortSorted(nf);
    WithoutOfSorted(Sort(nf), key);
    SortContents(nf);
    forall i | 0 <= i < |nw| ensures nw[i] in Without(Sort(nf), key) {
      assert nw[i] in nw;
      WithoutNormalFields(cert.fields, key, nw[i]);
    }
    SortedDistinct(Sort(nf));
    WithoutLength(cert.fields, key);
    WithoutLength(Sort(nf), key);
    GetOfNormal(cert, key);
    assert |Sort(nf)| == |multiset(Sort(nf))| == |nf|;
    hide Without, Less;
    SortIs(nw, Without(Sort(nf), key));
  }

  lemma {:induction false} FindOfConcat(a: seq<Field>, b: seq<Field>, key: string)
    ensures Find(a + b, key) == if Find(a, key).Some? then Find(a, key) else Find(b, key)
  {
    if a == [] {
      assert a + b == b;
    } else {
      assert (a + b)[1..] == a[1..] + b;
      FindOfConcat(a[1..], b, key);
    }
  }

  lemma {:induction false} WithoutLast(fields: seq<Field>, last: Field)
    requires Find(fields, last.key) == None
    ensures Without(fields + [last], last.key) == fields
  {
    if fields == [] {
      assert Without([last], last.key) == [] by { assert [last][1..] == []; }
      assert fields + [last] == [last];
    } else {
      assert (fields + [last])[1..] == fields[1..] + [last];
      WithoutLast(fields[1..], last);
    }
  }

  lemma BodyFields(subject: string, kemPk: Bytes, issuer: string, validFrom: int, validTo: int)
    ensures var body := Body(subject, kemPk, issuer, validFrom, validTo);
            && body.Get("signature") == None
            && body.Get("subject") == Some(Str(subject))
            && body.Get("kem_public_key") == Some(Str(Base64Url.Encode(kemPk)))
            && body.Get("valid_from") == Some(Int(validFrom))
            && body.Get("valid_to") == Some(Int(validTo))
            && body.Get("key_usage") == Some(Str("kemtls"))
  {
    var fields := Body(subject, kemPk, issuer, validFrom, validTo).fields;
    FindNone(fields, "signature");
    FindAt(fields, 0);
    FindAt(fields, 1);
    FindAt(fields, 3);
    FindAt(fields, 4);
    FindAt(fields, 5);
  }

  lemma ValidateDecides(c: Suite, cert: Value, caPk: Bytes, identity: string, now: int, subject: string,
                        body: Value, signature: Bytes, kemPk: Bytes, validFrom: int, validTo: int)
    requires IsMessage(cert) && cert.Obj? && IsMessage(body) && body.Obj?
    requires IsMessage(Obj(Without(cert.fields, "signature")))
    requires Serialize(Obj(Without(cert.fields, "signature"))) == Serialize(body)
    requires Verify(c, caPk, Serialize(body).value, signature) == Ok(true)
    requires cert.Get("signature") == Some(Str(Base64Url.Encode(signature)))
    requires cert.Get("valid_from") == Some(Int(validFrom)) && cert.Get("valid_to") == Some(Int(validTo))
    requires cert.Get("key_usage") == Some(Str("kemtls")) && cert.Get("subject") == Some(Str(subject))
    requires cert.Get("kem_public_key") == Some(Str(Base64Url.Encode(kemPk)))
    ensures Validate(c, cert, caPk, identity, now) ==
            if validFrom <= now <= validTo && identity == subject then Ok(kemPk) else Raise(ValueError)
  {
    Base64Url.RoundTrip(signature);
    Base64Url.RoundTrip(kemPk);
    hide Base64Url.Decode, Base64Url.Encode, Without, IsMessage, Find, Serialize, Verify;
  }

  lemma NormalTexts()
    ensures forall s {:trigger Normal(Str(s))} :: Normal(Str(s)) == Str(s)
    ensures forall i {:trigger Normal(Int(i))} :: Normal(Int(i)) == Int(i)
  {
  }

  lemma CreatedFields(body: Value, last: Field)
    requires IsMessage(body) && body.Obj? && body.Get("signature") == None && last.key == "signature" && last.val.Str?
    ensures var cert := Obj(body.fields + [last]);
            && IsMessage(cert) && IsMessage(Normal(cert))
            && IsMessage(Obj(Without(Normal(cert).fields, "signature")))
            && Serialize(Obj(Without(Normal(cert).fields, "signature"))) == Serialize(body)
  {
    var cert := Obj(body.fields + [last]);
    CertIsMessage(body, last);
    NormalIsNormal(cert);
    NormalIsMessage(Normal(cert));
    WithoutLast(body.fields, last);
    NormalWithout(cert, "signature");
    hide Normal, Without, IsMessage, Serialize;
    assert Normal(body).Obj? by { NormalKeepsShape(body); }
    SignedBody(body, Obj(Without(Normal(cert).fields, "signature")));
  }

  lemma NormalKeepsShape(v: Value)
    requires v.Obj?
    ensures Normal(v).Obj?
  {
  }

  /**
    A certificate made by `Create`, after being serialised and decoded, validates to the public key
    it was made for exactly inside its time window and for its own subject.
  */
  lemma CreatedValidatesIff(c: Suite, subject: string, kemPk: Bytes, caSk: Bytes, issuer: string,
                            validFrom: int, validTo: int, identity: string, now: int)
    requires SignaturesCorrect(c) && |caSk| == SIG_SECRET_KEY_SIZE
    ensures var cert := Create(c, subject, kemPk, caSk, issuer, validFrom, validTo);
            && cert.Ok? && IsMessage(cert.value) && cert.value.Obj? && cert.value.fields != []
            && IsMessage(Normal(cert.value))
            && Validate(c, Normal(cert.value), c.sigPublic(caSk), identity, now) ==
               if validFrom <= now <= validTo && identity == subject then Ok(kemPk) else Raise(ValueError)
  {
    var body := Body(subject, kemPk, issuer, validFrom, validTo);
    var signature := c.sigSign(caSk, Serialize(body).value);
    var last := Field("signature", Str(Base64Url.Encode(signature)));
    var cert := Obj(body.fields + [last]);
    assert Create(c, subject, kemPk, caSk, issuer, validFrom, validTo) == Ok(cert);
    BodyFields(subject, kemPk, issuer, validFrom, validTo);
    CreatedFields(body, last);
    hide Body, Base64Url.Encode, Serialize, Normal, Without, IsMessage, Find, Validate;
    CreatedReads(body, last, "subject");
    CreatedReads(body, last, "kem_public_key");
    CreatedReads(body, last, "valid_from");
    CreatedReads(body, last, "valid_to");
    CreatedReads(body, last, "key_usage");
    NormalTexts();
    assert Verify(c, c.sigPublic(caSk), Serialize(body).value, signature) == Ok(true);
    ValidateDecides(c, Normal(cert), c.sigPublic(caSk), identity, now, subject, body, signature, kemPk, validFrom, validTo);
  }

  lemma CertIsMessage(body: Value, last: Field)
    requires IsMessage(body) && body.Obj? && body.Get(last.key) == None && last.val.Str?
    ensures IsMessage(Obj(body.fields + [last]))
  {
    forall i | 0 <= i < |body.fields| ensures body.fields[i].key != last.key {
      if body.fields[i].key == last.key {
        FindAt(body.fields, i);
      }
    }
  }

  lemma SignedBody(body: Value, decoded: Value)
    requires IsMessage(body) && body.Obj? && decoded.Obj?
    requires decoded == Normal(body)
    ensures IsMessage(decoded) && Serialize(decoded) == Serialize(body)
  {
    NormalIsNormal(body);
    NormalIsMessage(decoded);
    NormalIdempotent(decoded);
  }

  lemma CreatedReads(body: Value, last: Field, key: string)
    requires IsMessage(body) && body.Obj? && body.Get(last.key) == None && last.val.Str? && key != last.key
    ensures var cert := Obj(body.fields + [last]);
            && Normal(cert).Obj?
            && Normal(cert).Get(last.key) == Some(last.val)
            && Normal(cert).Get(key) == NormalOption(body.Get(key))
  {
    var cert := Obj(body.fields + [last]);
    CertIsMessage(body, last);
    GetOfNormal(cert, last.key);
    FindOfConcat(body.fields, [last], last.key);
    GetOfNormal(cert, key);
    FindOfConcat(body.fields, [last], key);
    FindNone([last], key);
  }
}
