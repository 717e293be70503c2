/** The nonce of a record or packet: the IV with the sequence number XORed into its last 8 bytes. */
module Nonces {
  import opened Wrappers
  import opened ByteStrings
  import opened Primitives

  const NONCE_SIZE := 12
  const SEQ_LIMIT := 0x1_0000_0000_0000_0000

  function Pow2(n: nat): nat {
    if n == 0 then 1 else 2 * Pow2(n - 1)
  }

  /** The exclusive or of the last n bits of two numbers. */
  function XorBits(a: nat, b: nat, n: nat): (r: nat)
    ensures r < Pow2(n)
  {
    if n == 0 then 0 else 2 * XorBits(a / 2, b / 2, n - 1) + (if a % 2 == b % 2 then 0 else 1)
  }

  function Xor(a: byte, b: byte): byte {
    assert Pow2(8) == 256 by { assert Pow2(4) == 16; }
    XorBits(a, b, 8)
  }

  lemma {:induction false} XorBitsCancels(a: nat, b: nat, b': nat, n: nat)
    requires b < Pow2(n) && b' < Pow2(n)
    requires XorBits(a, b, n) == XorBits(a, b', n)
    ensures b == b'
  {
    if n > 0 {
      var x, y := XorBits(a / 2, b / 2, n - 1), XorBits(a / 2, b' / 2, n - 1);
      var d, e := if a % 2 == b % 2 then 0 else 1, if a % 2 == b' % 2 then 0 else 1;
      assert 2 * x + d == 2 * y + e;
      XorBitsCancels(a / 2, b / 2, b' / 2, n - 1);
      assert b % 2 == b' % 2;
    }
  }

  lemma XorCancels(a: byte, b: byte, b': byte)
    requires Xor(a, b) == Xor(a, b')
    ensures b == b'
  {
    assert Pow2(8) == 256 by { assert Pow2(4) == 16; }
    XorBitsCancels(a, b, b', 8);
  }

  function PaddedSeq(seqNumber: nat): (p: Bytes)
    requires seqNumber < SEQ_LIMIT
    ensures |p| == NONCE_SIZE
  {
    Pow256Values();
    Zeros(4) + BigEndian(seqNumber, 8)
  }

  function XorBytes(a: Bytes, b: Bytes): (r: Bytes)
    requires |a| == |b|
    ensures |r| == |a|
  {
    seq(|a|, i requires 0 <= i < |a| => Xor(a[i], b[i]))
  }

  function XorIvWithSeq(iv: Bytes, seqNumber: int): (r: Result<Bytes>)
    ensures r.Ok? <==> |iv| == NONCE_SIZE && 0 <= seqNumber < SEQ_LIMIT
  {
    if |iv| != NONCE_SIZE || seqNumber < 0 || seqNumber >= SEQ_LIMIT then Raise(ValueError)
    else Ok(XorBytes(iv, PaddedSeq(seqNumber)))
  }

  /** Under one IV, different sequence numbers give different nonces. */
  lemma NonceInjective(iv: Bytes, m: int, n: int)
    requires XorIvWithSeq(iv, m).Ok? && XorIvWithSeq(iv, n).Ok?
    requires XorIvWithSeq(iv, m) == XorIvWithSeq(iv, n)
    ensures m == n
  {
    hide Xor;
    var p, q := PaddedSeq(m), PaddedSeq(n);
    var x, y := XorBytes(iv, p), XorBytes(iv, q);
    forall i | 0 <= i < NONCE_SIZE ensures p[i] == q[i] {
      assert x[i] == y[i];
      XorCancels(iv[i], p[i], q[i]);
    }
    Pow256Values();
    assert p[4..] == BigEndian(m, 8) && q[4..] == BigEndian(n, 8);
    assert p == q;
    BigEndianInjective(m, n, 8);
  }

  // ---------------------------------------------------------------------------------------------
  // Bit by bit and byte by byte
  // ---------------------------------------------------------------------------------------------

  lemma HalfOf(x: nat, m: nat)
    requires m > 0
    ensures x / (2 * m) == x / 2 / m
  {
    var q := x / 2 / m;
    assert q * m <= x / 2 < (q + 1) * m by {
      assert x / 2 == q * m + (x / 2) % m;
      assert (q + 1) * m == q * m + m;
    }
    assert 2 * (q * m) <= x < 2 * ((q + 1) * m);
    QuotientIs(x, 2 * m, q);
  }

  lemma QuotientIs(x: nat, d: nat, q: nat)
    requires d > 0 && q * d <= x < (q + 1) * d
    ensures x / d == q
  {
    var p := x / d;
    assert x == p * d + x % d;
    assert p * d <= x < (p + 1) * d;
    if p < q {
      TimesGrows(p + 1, q, d);
      assert false;
    } else if p > q {
      TimesGrows(q + 1, p, d);
      assert false;
    }
  }

  lemma TimesGrows(a: nat, b: nat, d: nat)
    requires a <= b
    ensures a * d <= b * d
  {
  }

  lemma PowPositive(n: nat)
    ensures Pow2(n) > 0
  {
  }

  /** Bit k of the result is set exactly when bit k of one of the two is. */
  lemma {:induction false} XorBitsAt(a: nat, b: nat, n: nat, k: nat)
    requires k < n
    ensures Pow2(k) > 0
    ensures XorBits(a, b, n) / Pow2(k) % 2 == if a / Pow2(k) % 2 == b / Pow2(k) % 2 then 0 else 1
  {
    PowPositive(k);
    if k > 0 {
      PowPositive(k - 1);
      XorBitsAt(a / 2, b / 2, n - 1, k - 1);
      HalfOf(a, Pow2(k - 1));
      HalfOf(b, Pow2(k - 1));
      HalfOf(XorBits(a, b, n), Pow2(k - 1));
      assert XorBits(a, b, n) / 2 == XorBits(a / 2, b / 2, n - 1);
    }
  }

  /** The nonce: four bytes of the IV, then its other eight each with a byte of the number, high byte first. */
  lemma NonceBytes(iv: Bytes, seqNumber: nat)
    requires |iv| == NONCE_SIZE && seqNumber < SEQ_LIMIT
    ensures seqNumber < Pow256(8)
    ensures var nonce := XorIvWithSeq(iv, seqNumber).value;
            nonce[..4] == iv[..4] && forall i | 4 <= i < 12 :: nonce[i] == Xor(iv[i], BigEndian(seqNumber, 8)[i - 4])
  {
    Pow256Values();
    hide Xor, BigEndian, Pow256;
    var nonce := XorIvWithSeq(iv, seqNumber).value;
    forall i | 0 <= i < 4 ensures nonce[i] == iv[i] {
      XorZero(iv[i]);
    }
  }

  /** Bit k of the exclusive or of two bytes is set exactly when they differ there. */
  lemma XorAt(a: byte, b: byte, k: nat)
    requires k < 8
    ensures Pow2(k) > 0 && Xor(a, b) / Pow2(k) % 2 == if a / Pow2(k) % 2 == b / Pow2(k) % 2 then 0 else 1
  {
    XorBitsAt(a, b, 8, k);
  }

  lemma {:induction false} XorBitsZero(a: nat, n: nat)
    requires a < Pow2(n)
    ensures XorBits(a, 0, n) == a
  {
    if n > 0 {
      XorBitsZero(a / 2, n - 1);
    }
  }

  lemma XorZero(a: byte)
    ensures Xor(a, 0) == a
  {
    assert Pow2(8) == 256 by { assert Pow2(4) == 16; }
    XorBitsZero(a, 8);
  }
}
