/**
  The foreign cryptographic primitives: arbitrary functions, of which only sizes and the
  correctness laws are known. Nothing here says that an output determines its input.
*/
module Primitives {
  import opened Wrappers
  import opened ByteStrings

  const HASH_LEN := 32
  const KEM_PUBLIC_KEY_SIZE := 1184
  const KEM_SECRET_KEY_SIZE := 2400
  const KEM_CIPHERTEXT_SIZE := 1088
  const SIG_PUBLIC_KEY_SIZE := 1952
  const SIG_SECRET_KEY_SIZE := 4032
  const SIGNATURE_SIZE := 3309
  const TAG_SIZE := 16

  /** Randomised operations take their coins as the last argument. */
  datatype Suite = Suite(
    sha256: Bytes -> Bytes,
    hmac: (Bytes, Bytes) -> Bytes,
    kemPublic: Bytes -> Bytes,
    kemCiphertext: (Bytes, Bytes) -> Bytes,
    kemShared: (Bytes, Bytes) -> Bytes,
    kemDecapsulate: (Bytes, Bytes) -> Bytes,
    sigPublic: Bytes -> Bytes,
    sigSign: (Bytes, Bytes) -> Bytes,
    sigVerify: (Bytes, Bytes, Bytes) -> bool,
    aeadSeal: (Bytes, Bytes, Bytes, Bytes) -> Bytes,
    aeadOpen: (Bytes, Bytes, Bytes, Bytes) -> Option<Bytes>
  )

  ghost predicate HashesHaveFixedSize(c: Suite) {
    (forall data :: |c.sha256(data)| == HASH_LEN) &&
    (forall key, data :: |c.hmac(key, data)| == HASH_LEN)
  }

  /** A KEM secret key opens what was encapsulated to its public key. */
  ghost predicate KemCorrect(c: Suite) {
    (forall sk :: |sk| == KEM_SECRET_KEY_SIZE ==> |c.kemPublic(sk)| == KEM_PUBLIC_KEY_SIZE) &&
    (forall pk, coins :: |pk| == KEM_PUBLIC_KEY_SIZE ==>
       |c.kemCiphertext(pk, coins)| == KEM_CIPHERTEXT_SIZE && |c.kemShared(pk, coins)| == HASH_LEN) &&
    (forall sk, ct :: |sk| == KEM_SECRET_KEY_SIZE && |ct| == KEM_CIPHERTEXT_SIZE ==>
       |c.kemDecapsulate(sk, ct)| == HASH_LEN) &&
    (forall sk, coins :: |sk| == KEM_SECRET_KEY_SIZE ==>
       c.kemDecapsulate(sk, c.kemCiphertext(c.kemPublic(sk), coins)) == c.kemShared(c.kemPublic(sk), coins))
  }

  /** A signature verifies under the public key of the key that made it. */
  ghost predicate SignaturesCorrect(c: Suite) {
    (forall sk :: |sk| == SIG_SECRET_KEY_SIZE ==> |c.sigPublic(sk)| == SIG_PUBLIC_KEY_SIZE) &&
    (forall sk, message :: |sk| == SIG_SECRET_KEY_SIZE ==>
       |c.sigSign(sk, message)| == SIGNATURE_SIZE &&
       c.sigVerify(c.sigPublic(sk), message, c.sigSign(sk, message)))
  }

  /** Opening undoes sealing under the same key, nonce and associated data. */
  ghost predicate AeadCorrect(c: Suite) {
    (forall key, nonce, plain, aad :: |c.aeadSeal(key, nonce, plain, aad)| == |plain| + TAG_SIZE) &&
    (forall key, nonce, plain, aad :: c.aeadOpen(key, nonce, c.aeadSeal(key, nonce, plain, aad), aad) == Some(plain))
  }

  ghost predicate Correct(c: Suite) {
    HashesHaveFixedSize(c) && KemCorrect(c) && SignaturesCorrect(c) && AeadCorrect(c)
  }

  function Encapsulate(c: Suite, pk: Bytes, coins: Bytes): Result<(Bytes, Bytes)> {
    if |pk| != KEM_PUBLIC_KEY_SIZE then Raise(ValueError)
    else Ok((c.kemCiphertext(pk, coins), c.kemShared(pk, coins)))
  }

  function Decapsulate(c: Suite, sk: Bytes, ct: Bytes): Result<Bytes> {
    if |sk| != KEM_SECRET_KEY_SIZE || |ct| != KEM_CIPHERTEXT_SIZE then Raise(ValueError)
    else Ok(c.kemDecapsulate(sk, ct))
  }

  function Sign(c: Suite, sk: Bytes, message: Bytes): Result<Bytes> {
    if |sk| != SIG_SECRET_KEY_SIZE then Raise(ValueError) else Ok(c.sigSign(sk, message))
  }

  function Verify(c: Suite, pk: Bytes, message: Bytes, signature: Bytes): Result<bool> {
    if |pk| != SIG_PUBLIC_KEY_SIZE || |signature| != SIGNATURE_SIZE then Raise(ValueError)
    else Ok(c.sigVerify(pk, message, signature))
  }

  function Zeros(n: nat): (z: Bytes)
    ensures |z| == n
  {
    seq(n, i => 0)
  }

  /** The laws can be met together. */
  lemma CorrectSuiteExists()
    ensures exists c :: Correct(c)
  {
    var c := Suite(
      (data: Bytes) => Zeros(32),
      (key: Bytes, data: Bytes) => Zeros(32),
      (sk: Bytes) => Zeros(1184),
      (pk: Bytes, coins: Bytes) => Zeros(1088),
      (pk: Bytes, coins: Bytes) => Zeros(32),
      (sk: Bytes, ct: Bytes) => Zeros(32),
      (sk: Bytes) => Zeros(1952),
      (sk: Bytes, message: Bytes) => Zeros(3309),
      (pk: Bytes, message: Bytes, signature: Bytes) => true,
      (key: Bytes, nonce: Bytes, plain: Bytes, aad: Bytes) => Zeros(16) + plain,
      (key: Bytes, nonce: Bytes, sealed: Bytes, aad: Bytes) => if |sealed| < 16 then None else Some(sealed[16..]));
    forall key, nonce, plain, aad
      ensures c.aeadOpen(key, nonce, c.aeadSeal(key, nonce, plain, aad), aad) == Some(plain)
    {
      assert (Zeros(16) + plain)[16..] == plain;
    }
    assert Correct(c);
  }
}
