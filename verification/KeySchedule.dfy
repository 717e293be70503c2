/** HKDF with labels, and the derivation chain of the handshake. */
module KeySchedule {
  import opened Wrappers
  import opened ByteStrings
  import opened Primitives

  // ---------------------------------------------------------------------------------------------
  // HKDF-Expand
  // ---------------------------------------------------------------------------------------------

  const MAX_EXPAND := 255 * HASH_LEN

  /** The block T(i) of section 2.3 of RFC 5869. */
  function Block(c: Suite, prk: Bytes, info: Bytes, i: nat): Bytes
    requires i < 256
  {
    if i == 0 then [] else c.hmac(prk, Block(c, prk, info, i - 1) + info + [i])
  }

  /** T(1) | T(2) | ... | T(n). */
  function Blocks(c: Suite, prk: Bytes, info: Bytes, n: nat): Bytes
    requires n < 256
  {
    if n == 0 then [] else Blocks(c, prk, info, n - 1) + Block(c, prk, info, n)
  }

  lemma {:induction false} BlocksLength(c: Suite, prk: Bytes, info: Bytes, n: nat)
    requires HashesHaveFixedSize(c) && n < 256
    ensures |Blocks(c, prk, info, n)| == n * HASH_LEN
  {
    if n > 0 {
      BlocksLength(c, prk, info, n - 1);
    }
  }

  /** The blocks that an output of the given length needs. */
  function BlockCount(length: nat): nat { (length + HASH_LEN - 1) / HASH_LEN }

  /** The first `length` bytes of the blocks, for every length up to 255 blocks. */
  function Expand(c: Suite, prk: Bytes, info: Bytes, length: nat): (r: Result<Bytes>)
    requires HashesHaveFixedSize(c)
    ensures r.Ok? <==> length <= MAX_EXPAND
    ensures r.Ok? ==> |r.value| == length
  {
    if length > MAX_EXPAND then Raise(ValueError)
    else
      BlocksLength(c, prk, info, BlockCount(length));
      Ok(Blocks(c, prk, info, BlockCount(length))[..length])
  }

  /** The Python loop: it stops with counter bytes 1 to 255 only. */
  method ExpandPython(c: Suite, prk: Bytes, info: Bytes, length: nat) returns (r: Result<Bytes>)
    requires HashesHaveFixedSize(c)
    ensures r == Expand(c, prk, info, length)
  {
    if length > MAX_EXPAND {
      return Raise(ValueError);
    }
    var output: Bytes := [];
    var previous: Bytes := [];
    var counter := 1;
    while |output| < length
      invariant 1 <= counter <= BlockCount(length) + 1
      invariant output == Blocks(c, prk, info, counter - 1) && |output| == (counter - 1) * HASH_LEN
      invariant previous == Block(c, prk, info, counter - 1)
      decreases BlockCount(length) + 1 - counter
    {
      previous := c.hmac(prk, previous + info + [counter]);
      output := output + previous;
      counter := counter + 1;
    }
    assert counter - 1 == BlockCount(length);
    r := Ok(output[..length]);
  }

  /** The Rust loop: its 8-bit counter is stepped with an overflow check after every block. */
  method ExpandRust(c: Suite, prk: Bytes, info: Bytes, length: nat) returns (r: Result<Bytes>)
    requires HashesHaveFixedSize(c)
    ensures r == if length <= 254 * HASH_LEN then Expand(c, prk, info, length) else Raise(ValueError)
  {
    if length > MAX_EXPAND {
      return Raise(ValueError);
    }
    var output: Bytes := [];
    var previous: Bytes := [];
    var counter: byte := 1;
    while |output| < length
      invariant 1 <= counter <= BlockCount(length) + 1
      invariant output == Blocks(c, prk, info, counter - 1) && |output| == (counter - 1) * HASH_LEN
      invariant previous == Block(c, prk, info, counter - 1)
      decreases BlockCount(length) + 1 - counter
    {
      previous := c.hmac(prk, previous + info + [counter]);
      output := output + previous;
      if counter == 255 {
        return Raise(ValueError);
      }
      counter := counter + 1;
    }
    assert counter - 1 == BlockCount(length);
    r := Ok(output[..length]);
  }

  lemma {:induction false} BlocksAt(c: Suite, prk: Bytes, info: Bytes, n: nat, i: nat)
    requires HashesHaveFixedSize(c) && i < n < 256
    ensures |Blocks(c, prk, info, n)| == n * HASH_LEN && |Block(c, prk, info, i + 1)| == HASH_LEN
    ensures Blocks(c, prk, info, n)[i * HASH_LEN..(i + 1) * HASH_LEN] == Block(c, prk, info, i + 1)
  {
    BlocksLength(c, prk, info, n);
    BlocksLength(c, prk, info, n - 1);
    if i < n - 1 {
      BlocksAt(c, prk, info, n - 1, i);
      assert Blocks(c, prk, info, n)[i * HASH_LEN..(i + 1) * HASH_LEN] == Blocks(c, prk, info, n - 1)[i * HASH_LEN..(i + 1) * HASH_LEN];
    }
  }

  /**
    The output chain of section 2.3 of RFC 5869, read off the output: each full block of 32 bytes is
    the HMAC of the block before it, the info and its number, the first of the info and 1 alone.
  */
  lemma ExpandChain(c: Suite, prk: Bytes, info: Bytes, length: nat, i: nat)
    requires HashesHaveFixedSize(c) && length <= MAX_EXPAND && (i + 1) * HASH_LEN <= length
    ensures var out := Expand(c, prk, info, length).value;
            out[i * HASH_LEN..(i + 1) * HASH_LEN] ==
            c.hmac(prk, (if i == 0 then [] else out[(i - 1) * HASH_LEN..i * HASH_LEN]) + info + [i + 1])
  {
    var n := BlockCount(length);
    var all := Blocks(c, prk, info, n);
    BlocksAt(c, prk, info, n, i);
    assert all[..length][i * HASH_LEN..(i + 1) * HASH_LEN] == all[i * HASH_LEN..(i + 1) * HASH_LEN];
    if i > 0 {
      BlocksAt(c, prk, info, n, i - 1);
      assert all[..length][(i - 1) * HASH_LEN..i * HASH_LEN] == all[(i - 1) * HASH_LEN..i * HASH_LEN];
    }
  }

  /** A shorter output is the start of a longer one. */
  lemma {:induction false} ExpandPrefix(c: Suite, prk: Bytes, info: Bytes, m: nat, n: nat)
    requires HashesHaveFixedSize(c) && m <= n <= MAX_EXPAND
    ensures Expand(c, prk, info, m).value == Expand(c, prk, info, n).value[..m]
  {
    BlocksLength(c, prk, info, BlockCount(m));
    BlocksLength(c, prk, info, BlockCount(n));
    BlocksPrefix(c, prk, info, BlockCount(m), BlockCount(n));
  }

  lemma {:induction false} BlocksPrefix(c: Suite, prk: Bytes, info: Bytes, m: nat, n: nat)
    requires m <= n < 256
    ensures Blocks(c, prk, info, m) <= Blocks(c, prk, info, n)
  {
    if m < n {
      BlocksPrefix(c, prk, info, m, n - 1);
    }
  }

  /** One block is enough for an output no longer than a hash. */
  lemma ExpandOneBlock(c: Suite, prk: Bytes, info: Bytes, length: nat)
    requires HashesHaveFixedSize(c) && 0 < length <= HASH_LEN
    ensures Expand(c, prk, info, length) == Ok(c.hmac(prk, info + [1])[..length])
  {
    assert Block(c, prk, info, 0) + info == info;
    assert Block(c, prk, info, 1) == c.hmac(prk, info + [1]);
    assert Blocks(c, prk, info, 0) == [];
    assert Blocks(c, prk, info, 1) == Blocks(c, prk, info, 0) + Block(c, prk, info, 1) == Block(c, prk, info, 1);
    assert BlockCount(length) == 1;
  }

  // ---------------------------------------------------------------------------------------------
  // Labels
  // ---------------------------------------------------------------------------------------------

  /** The bytes of "kemtls13 ". */
  const LABEL_PREFIX: Bytes := [107, 101, 109, 116, 108, 115, 49, 51, 32]

  predicate IsLabel(name: Bytes) { |LABEL_PREFIX + name| <= 255 }

  /** length (2 bytes) | label length | "kemtls13 " label | context length | context. */
  function LabelInfo(length: nat, name: Bytes, context: Bytes): (info: Bytes)
    requires length < Pow256(2) && IsLabel(name) && |context| <= 255
  {
    BigEndian(length, 2) + [|LABEL_PREFIX + name|] + (LABEL_PREFIX + name) + [|context|] + context
  }

  /** The encoding determines the length, the label and the context. */
  lemma LabelInfoInjective(length: nat, name: Bytes, context: Bytes, length': nat, name': Bytes, context': Bytes)
    requires length < Pow256(2) && IsLabel(name) && |context| <= 255
    requires length' < Pow256(2) && IsLabel(name') && |context'| <= 255
    requires LabelInfo(length, name, context) == LabelInfo(length', name', context')
    ensures length == length' && name == name' && context == context'
  {
    var info := LabelInfo(length, name, context);
    var full, full' := LABEL_PREFIX + name, LABEL_PREFIX + name';
    assert info[..2] == BigEndian(length, 2) == BigEndian(length', 2);
    BigEndianInjective(length, length', 2);
    assert info[2] == |full| == |full'|;
    assert info[3..3 + |full|] == full == full';
    assert full[|LABEL_PREFIX|..] == name && full'[|LABEL_PREFIX|..] == name';
    assert info[4 + |full|..] == context == context';
  }

  function ExpandLabel(c: Suite, secret: Bytes, name: Bytes, context: Bytes, length: int): (r: Result<Bytes>)
    requires HashesHaveFixedSize(c)
    ensures r.Ok? <==> 0 < length <= MAX_EXPAND && IsLabel(name) && |context| <= 255
    ensures r.Ok? ==> |r.value| == length
  {
    if length <= 0 then Raise(ValueError)
    else if length >= 0x1_0000 then Raise(OverflowError)
    else if !IsLabel(name) || |context| > 255 then Raise(ValueError)
    else
      Pow256Values();
      Expand(c, secret, LabelInfo(length, name, context), length)
  }

  /** A derived 32-byte secret is one HMAC of the encoded label. */
  lemma ExpandLabelIsHmac(c: Suite, secret: Bytes, name: Bytes, context: Bytes)
    requires HashesHaveFixedSize(c) && IsLabel(name) && |context| <= 255
    ensures HASH_LEN < Pow256(2)
    ensures ExpandLabel(c, secret, name, context, HASH_LEN) ==
            Ok(c.hmac(secret, LabelInfo(HASH_LEN, name, context) + [1]))
  {
    Pow256Values();
    var info := LabelInfo(HASH_LEN, name, context);
    ExpandOneBlock(c, secret, info, HASH_LEN);
    assert c.hmac(secret, info + [1])[..HASH_LEN] == c.hmac(secret, info + [1]);
  }

  // ---------------------------------------------------------------------------------------------
  // The derivation chain
  // ---------------------------------------------------------------------------------------------

  /** The labels the program derives with. */
  datatype Label =
    | ClientHandshakeTraffic | ServerHandshakeTraffic | FinishedKey | Derived
    | ClientApplicationTraffic | ServerApplicationTraffic | Iv
    | Exporter | OidcAccessToken | OidcRefreshToken
  {
    function Text(): (s: string)
      ensures IsAscii(s) && |s| <= 20
    {
      match this
      case ClientHandshakeTraffic => "c hs traffic"
      case ServerHandshakeTraffic => "s hs traffic"
      case FinishedKey => "finished"
      case Derived => "derived"
      case ClientApplicationTraffic => "c ap traffic"
      case ServerApplicationTraffic => "s ap traffic"
      case Iv => "iv"
      case Exporter => "exporter"
      case OidcAccessToken => "oidc-access-token"
      case OidcRefreshToken => "oidc-refresh-token"
    }

    function Encoded(): (b: Bytes)
      ensures IsLabel(b)
    {
      Ascii(Text())
    }
  }

  /** A secret of the given length, derived with one of the program's own labels. */
  function Derive(c: Suite, secret: Bytes, name: Label, context: Bytes, length: nat): (r: Bytes)
    requires HashesHaveFixedSize(c) && |context| <= 255 && 0 < length <= HASH_LEN
    ensures |r| == length
  {
    ExpandLabel(c, secret, name.Encoded(), context, length).value
  }

  /** The hash of the concatenated messages: the hasher is fed one message after the other. */
  function TranscriptHash(c: Suite, messages: seq<Bytes>): (h: Bytes)
    requires HashesHaveFixedSize(c)
    ensures |h| == HASH_LEN
  {
    c.sha256(Concat(messages))
  }

  function AllHashSized(secrets: seq<Bytes>): bool {
    forall i | 0 <= i < |secrets| :: |secrets[i]| == HASH_LEN
  }

  /** HKDF-Extract, with a zero salt, of the ordered shared secrets. */
  function HandshakeSecret(c: Suite, secrets: seq<Bytes>): (r: Result<Bytes>)
    ensures r.Ok? <==> secrets != [] && AllHashSized(secrets)
  {
    if secrets == [] || !AllHashSized(secrets) then Raise(ValueError)
    else Ok(c.hmac(Zeros(HASH_LEN), Concat(secrets)))
  }

  lemma {:induction false} ConcatSnoc(parts: seq<Bytes>, last: Bytes)
    ensures Concat(parts + [last]) == Concat(parts) + last
  {
    if parts == [] {
      assert [last][1..] == [];
      assert Concat([]) == [];
      assert [] + [last] == [last];
    } else {
      ConcatSnoc(parts[1..], last);
      assert (parts + [last])[1..] == parts[1..] + [last];
    }
  }

  /** The loop that checks each shared secret and appends it to a buffer. */
  method DeriveHandshakeSecret(c: Suite, secrets: seq<Bytes>) returns (r: Result<Bytes>)
    ensures r == HandshakeSecret(c, secrets)
  {
    if secrets == [] {
      return Raise(ValueError);
    }
    var concatenated: Bytes := [];
    for i := 0 to |secrets|
      invariant forall k | 0 <= k < i :: |secrets[k]| == HASH_LEN
      invariant concatenated == Concat(secrets[..i])
    {
      if |secrets[i]| != HASH_LEN {
        return Raise(ValueError);
      }
      ConcatSnoc(secrets[..i], secrets[i]);
      assert secrets[..i + 1] == secrets[..i] + [secrets[i]];
      concatenated := concatenated + secrets[i];
    }
    assert secrets[..|secrets|] == secrets;
    r := Ok(c.hmac(Zeros(HASH_LEN), concatenated));
  }

  /** The MAC keys of the two Finished messages, from the handshake secret and the hash of CH | SH. */
  function ClientFinishedKey(c: Suite, handshakeSecret: Bytes, hash1: Bytes): (k: Bytes)
    requires HashesHaveFixedSize(c) && |hash1| == HASH_LEN
    ensures |k| == HASH_LEN
  {
    Derive(c, Derive(c, handshakeSecret, ClientHandshakeTraffic, hash1, HASH_LEN), FinishedKey, [], HASH_LEN)
  }

  function ServerFinishedKey(c: Suite, handshakeSecret: Bytes, hash1: Bytes): (k: Bytes)
    requires HashesHaveFixedSize(c) && |hash1| == HASH_LEN
    ensures |k| == HASH_LEN
  {
    Derive(c, Derive(c, handshakeSecret, ServerHandshakeTraffic, hash1, HASH_LEN), FinishedKey, [], HASH_LEN)
  }

  function MasterSecret(c: Suite, handshakeSecret: Bytes): Bytes
    requires HashesHaveFixedSize(c)
  {
    c.hmac(Zeros(HASH_LEN), Derive(c, handshakeSecret, Derived, [], HASH_LEN))
  }

  function ClientApplicationSecret(c: Suite, handshakeSecret: Bytes, hash3: Bytes): (k: Bytes)
    requires HashesHaveFixedSize(c) && |hash3| == HASH_LEN
    ensures |k| == HASH_LEN
  {
    Derive(c, MasterSecret(c, handshakeSecret), ClientApplicationTraffic, hash3, HASH_LEN)
  }

  function ServerApplicationSecret(c: Suite, handshakeSecret: Bytes, hash3: Bytes): (k: Bytes)
    requires HashesHaveFixedSize(c) && |hash3| == HASH_LEN
    ensures |k| == HASH_LEN
  {
    Derive(c, MasterSecret(c, handshakeSecret), ServerApplicationTraffic, hash3, HASH_LEN)
  }

  // ---------------------------------------------------------------------------------------------
  // The chain, byte by byte
  // ---------------------------------------------------------------------------------------------

  /** The low bytes of a text's characters. */
  function Letters(s: string): Bytes {
    seq(|s|, i requires 0 <= i < |s| => s[i] as int % 256)
  }

  /** What is derived from a secret under a label, as bytes of one HMAC. */
  function Labelled(c: Suite, secret: Bytes, name: string, context: Bytes, length: byte): (r: Bytes)
    requires HashesHaveFixedSize(c) && length <= HASH_LEN
    ensures |r| == length
  {
    c.hmac(secret, [0, length, |"kemtls13 " + name| % 256] + Letters("kemtls13 " + name) + [|context| % 256] + context + [1])[..length]
  }

  lemma DeriveIs(c: Suite, secret: Bytes, name: Label, context: Bytes, length: byte)
    requires HashesHaveFixedSize(c) && |context| <= 32 && 0 < length <= HASH_LEN
    ensures Derive(c, secret, name, context, length) == Labelled(c, secret, name.Text(), context, length)
  {
    hide HashesHaveFixedSize, Label.Text, Expand, BigEndian, Pow256, Ascii, Letters;
    Pow256Values();
    TwoBytes(length);
    LabelBytes(name);
    var info := LabelInfo(length, name.Encoded(), context);
    ExpandOneBlock(c, secret, info, length);
    assert info == [0, length, |LABEL_PREFIX + name.Encoded()|] + (LABEL_PREFIX + name.Encoded()) + [|context|] + context;
  }

  lemma LabelBytes(name: Label)
    ensures LABEL_PREFIX + name.Encoded() == Letters("kemtls13 " + name.Text())
    ensures |"kemtls13 " + name.Text()| == |LABEL_PREFIX + name.Encoded()| < 256
  {
    hide Label.Text;
    LabelPrefixText();
  }

  lemma LabelPrefixText()
    ensures LABEL_PREFIX == Letters("kemtls13 ") && |"kemtls13 "| == 9
  {
  }

  lemma TwoBytes(n: byte)
    ensures n < Pow256(2) && BigEndian(n, 2) == [0, n]
  {
    Pow256Values();
    assert BigEndian(0, 0) == [];
    assert BigEndian(0, 1) == [0];
  }

  /** The MAC keys of the Finished messages, from the secret and the hash of the first two messages. */
  lemma FinishedKeysAre(c: Suite, handshakeSecret: Bytes, hash1: Bytes)
    requires HashesHaveFixedSize(c) && |hash1| == HASH_LEN
    ensures ClientFinishedKey(c, handshakeSecret, hash1) ==
            Labelled(c, Labelled(c, handshakeSecret, "c hs traffic", hash1, 32), "finished", [], 32)
    ensures ServerFinishedKey(c, handshakeSecret, hash1) ==
            Labelled(c, Labelled(c, handshakeSecret, "s hs traffic", hash1, 32), "finished", [], 32)
  {
    hide Derive, Labelled;
    DeriveIs(c, handshakeSecret, ClientHandshakeTraffic, hash1, 32);
    DeriveIs(c, handshakeSecret, ServerHandshakeTraffic, hash1, 32);
    DeriveIs(c, Derive(c, handshakeSecret, ClientHandshakeTraffic, hash1, 32), FinishedKey, [], 32);
    DeriveIs(c, Derive(c, handshakeSecret, ServerHandshakeTraffic, hash1, 32), FinishedKey, [], 32);
  }

  /** The application secrets, from the master secret and the hash of the first four messages. */
  lemma ApplicationSecretsAre(c: Suite, handshakeSecret: Bytes, hash3: Bytes)
    requires HashesHaveFixedSize(c) && |hash3| == HASH_LEN
    ensures var master := c.hmac(Zeros(32), Labelled(c, handshakeSecret, "derived", [], 32));
            ClientApplicationSecret(c, handshakeSecret, hash3) == Labelled(c, master, "c ap traffic", hash3, 32) &&
            ServerApplicationSecret(c, handshakeSecret, hash3) == Labelled(c, master, "s ap traffic", hash3, 32)
  {
    hide Derive, Labelled;
    DeriveIs(c, handshakeSecret, Derived, [], 32);
    DeriveIs(c, MasterSecret(c, handshakeSecret), ClientApplicationTraffic, hash3, 32);
    DeriveIs(c, MasterSecret(c, handshakeSecret), ServerApplicationTraffic, hash3, 32);
  }

  // ---------------------------------------------------------------------------------------------
  // Collisions on given inputs
  // ---------------------------------------------------------------------------------------------

  /** The hash does not send these two different inputs to one output. */
  predicate NoHashCollision(c: Suite, x: Bytes, y: Bytes) {
    c.sha256(x) == c.sha256(y) ==> x == y
  }

  /** The MAC does not send these two different pairs of key and data to one output. */
  predicate NoMacCollision(c: Suite, key: Bytes, data: Bytes, key': Bytes, data': Bytes) {
    c.hmac(key, data) == c.hmac(key', data') ==> key == key' && data == data'
  }

  /** The HMAC input of a derived secret. */
  function DeriveInput(name: Label, context: Bytes): Bytes
    requires |context| <= 255
  {
    Pow256Values();
    LabelInfo(HASH_LEN, name.Encoded(), context) + [1]
  }

  predicate NoDeriveCollision(c: Suite, secret: Bytes, name: Label, context: Bytes,
                              secret': Bytes, name': Label, context': Bytes)
    requires |context| <= 255 && |context'| <= 255
  {
    NoMacCollision(c, secret, DeriveInput(name, context), secret', DeriveInput(name', context'))
  }

  lemma LabelTextsDistinct(a: Label, b: Label)
    requires a.Encoded() == b.Encoded()
    ensures a == b
  {
    hide Ascii;
    AsciiInjective(a.Text(), b.Text());
  }

  /** Without a collision, a derived secret determines what it was derived from. */
  lemma DeriveDetermines(c: Suite, secret: Bytes, name: Label, context: Bytes,
                         secret': Bytes, name': Label, context': Bytes)
    requires HashesHaveFixedSize(c) && |context| <= 255 && |context'| <= 255
    requires NoDeriveCollision(c, secret, name, context, secret', name', context')
    requires Derive(c, secret, name, context, HASH_LEN) == Derive(c, secret', name', context', HASH_LEN)
    ensures secret == secret' && name == name' && context == context'
  {
    ExpandLabelIsHmac(c, secret, name.Encoded(), context);
    ExpandLabelIsHmac(c, secret', name'.Encoded(), context');
    var x, y := LabelInfo(HASH_LEN, name.Encoded(), context), LabelInfo(HASH_LEN, name'.Encoded(), context');
    assert x == (x + [1])[..|x|] && y == (y + [1])[..|y|];
    assert |x + [1]| == |y + [1]|;
    LabelInfoInjective(HASH_LEN, name.Encoded(), context, HASH_LEN, name'.Encoded(), context');
    LabelTextsDistinct(name, name');
  }
}
