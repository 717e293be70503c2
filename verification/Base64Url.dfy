/** Base64url with the padding stripped on output and restored on input (section 5 of RFC 4648). */
module Base64Url {
  import opened Wrappers
  import opened ByteStrings

  /** The character of a 6-bit value. */
  function Digit(v: int): (c: char)
    requires 0 <= v < 64
    ensures IsDigit(c) && DigitValue(c) == v
  {
    if v < 26 then (v + 'A' as int) as char
    else if v < 52 then (v - 26 + 'a' as int) as char
    else if v < 62 then (v - 52 + '0' as int) as char
    else if v == 62 then '-'
    else '_'
  }

  predicate IsDigit(c: char) {
    'A' <= c <= 'Z' || 'a' <= c <= 'z' || '0' <= c <= '9' || c == '-' || c == '_'
  }

  predicate AllDigits(s: string) {
    forall i | 0 <= i < |s| :: IsDigit(s[i])
  }

  function DigitValue(c: char): (v: int)
    requires IsDigit(c)
    ensures 0 <= v < 64
  {
    if 'A' <= c <= 'Z' then c as int - 'A' as int
    else if 'a' <= c <= 'z' then c as int - 'a' as int + 26
    else if '0' <= c <= '9' then c as int - '0' as int + 52
    else if c == '-' then 62
    else 63
  }

  type sextet = x: int | 0 <= x < 64

  /** Splits bytes into 6-bit values: four for three bytes, two or three for a last group. */
  function Sextets(data: Bytes): (v: seq<sextet>) {
    if data == [] then []
    else if |data| == 1 then [High(data[0]), Middle(data[0], 0)]
    else if |data| == 2 then [High(data[0]), Middle(data[0], data[1]), Lower(data[1], 0)]
    else
      [High(data[0]), Middle(data[0], data[1]), Lower(data[1], data[2]), data[2] % 64] + Sextets(data[3..])
  }

  function High(b: byte): sextet { b / 4 }

  function Middle(b: byte, c: byte): sextet { b % 4 * 16 + c / 16 }

  function Lower(c: byte, d: byte): sextet { c % 16 * 4 + d / 64 }

  function Byte0(u: sextet, v: sextet): byte { u * 4 + v / 16 }

  function Byte1(v: sextet, w: sextet): byte { v % 16 * 16 + w / 4 }

  function Byte2(w: sextet, x: sextet): byte { w % 4 * 64 + x }

  lemma BytesOfSextets(b: byte, c: byte, d: byte)
    ensures Byte0(High(b), Middle(b, c)) == b
    ensures Byte1(Middle(b, c), Lower(c, d)) == c
    ensures Byte2(Lower(c, d), d % 64) == d
  {
  }

  lemma SextetsOfBytes(u: sextet, v: sextet, w: sextet, x: sextet)
    ensures High(Byte0(u, v)) == u
    ensures Middle(Byte0(u, v), Byte1(v, w)) == v
    ensures Lower(Byte1(v, w), Byte2(w, x)) == w
    ensures Byte2(w, x) % 64 == x
    ensures Middle(Byte0(u, v), 0) == v <==> v % 16 == 0
    ensures Lower(Byte1(v, w), 0) == w <==> w % 4 == 0
  {
  }

  /** Joins 6-bit values; a lone last one is malformed, and leftover bits are dropped unchecked. */
  function FromSextets(v: seq<sextet>): (r: Result<Bytes>) {
    if v == [] then Ok([])
    else if |v| == 1 then Raise(ValueError)
    else if |v| == 2 then Ok([Byte0(v[0], v[1])])
    else if |v| == 3 then Ok([Byte0(v[0], v[1]), Byte1(v[1], v[2])])
    else if FromSextets(v[4..]).Raise? then Raise(ValueError)
    else
      Ok([Byte0(v[0], v[1]), Byte1(v[1], v[2]), Byte2(v[2], v[3])] + FromSextets(v[4..]).value)
  }

  /** Joining fails exactly on a lone last value. */
  lemma {:induction false} FromSextetsDefined(v: seq<sextet>)
    ensures FromSextets(v).Ok? <==> |v| % 4 != 1
  {
    hide High, Middle, Lower, Byte0, Byte1, Byte2;
    if |v| >= 4 {
      FromSextetsDefined(v[4..]);
      assert |v| == |v[4..]| + 4;
    } else if |v| >= 2 {
      assert FromSextets(v).Ok?;
    }
  }

  function Digits(v: seq<sextet>): (s: string)
    ensures AllDigits(s) && IsAscii(s)
    ensures Values(s) == v
  {
    seq(|v|, i requires 0 <= i < |v| => Digit(v[i]))
  }

  function Values(s: string): (v: seq<sextet>)
    requires AllDigits(s)
    ensures |v| == |s|
  {
    seq(|s|, i requires 0 <= i < |s| => DigitValue(s[i]))
  }

  lemma DigitOfValue(c: char)
    requires IsDigit(c)
    ensures Digit(DigitValue(c)) == c
  {
  }

  lemma DigitsOfValues(s: string)
    requires AllDigits(s)
    ensures Digits(Values(s)) == s
  {
    forall i | 0 <= i < |s| ensures Digits(Values(s))[i] == s[i] {
      DigitOfValue(s[i]);
    }
  }

  function Encode(data: Bytes): (s: string)
    ensures AllDigits(s) && IsAscii(s)
  {
    Digits(Sextets(data))
  }

  /**
    The pattern check of the decoder is anchored with `$`, which also matches before a last
    newline; the base64 library then skips the newline, after the padding was computed with it.
  */
  function Decode(s: string): (r: Result<Bytes>) {
    if AllDigits(s) then FromSextets(Values(s))
    else if s[|s| - 1] == '\n' && AllDigits(s[..|s| - 1]) && (|s| - 1) % 4 == 0 then
      FromSextets(Values(s[..|s| - 1]))
    else Raise(ValueError)
  }

  lemma {:induction false} FromSextetsOfSextets(data: Bytes)
    ensures FromSextets(Sextets(data)) == Ok(data)
  {
    hide High, Middle, Lower, Byte0, Byte1, Byte2;
    if |data| >= 3 {
      FromSextetsOfSextets(data[3..]);
      BytesOfSextets(data[0], data[1], data[2]);
      var v := Sextets(data);
      assert v[4..] == Sextets(data[3..]);
      assert data == [data[0], data[1], data[2]] + data[3..];
    } else if |data| == 1 {
      BytesOfSextets(data[0], 0, 0);
      assert data == [data[0]];
    } else if |data| == 2 {
      BytesOfSextets(data[0], data[1], 0);
      assert data == [data[0], data[1]];
    }
  }

  /** Decoding undoes encoding, for every byte string. */
  lemma RoundTrip(data: Bytes)
    ensures Decode(Encode(data)) == Ok(data)
  {
    FromSextetsOfSextets(data);
  }

  lemma EncodeInjective(a: Bytes, b: Bytes)
    requires Encode(a) == Encode(b)
    ensures a == b
  {
    RoundTrip(a);
    RoundTrip(b);
  }

  /** The bits that the last character leaves over: four after one byte, two after two. */
  predicate NoLeftoverBits(v: seq<sextet>) {
    (|v| % 4 == 2 ==> v[|v| - 1] % 16 == 0) &&
    (|v| % 4 == 3 ==> v[|v| - 1] % 4 == 0)
  }

  lemma {:induction false} SextetsOfFromSextets(v: seq<sextet>)
    requires FromSextets(v).Ok?
    ensures Sextets(FromSextets(v).value) == v <==> NoLeftoverBits(v)
  {
    hide High, Middle, Lower, Byte0, Byte1, Byte2;
    if |v| >= 4 {
      SextetsOfBytes(v[0], v[1], v[2], v[3]);
      SextetsOfFromSextets(v[4..]);
      var data := FromSextets(v).value;
      assert data[3..] == FromSextets(v[4..]).value;
      assert Sextets(data) == [v[0], v[1], v[2], v[3]] + Sextets(data[3..]);
      assert v == [v[0], v[1], v[2], v[3]] + v[4..];
    } else if |v| == 3 {
      SextetsOfBytes(v[0], v[1], v[2], 0);
      assert v == [v[0], v[1], v[2]];
    } else if |v| == 2 {
      SextetsOfBytes(v[0], v[1], 0, 0);
      assert v == [v[0], v[1]];
    }
  }

  /**
    Decoding is not injective: a text re-encodes to itself exactly when it has no trailing newline
    and its leftover bits are zero.
  */
  lemma DecodedTextIsCanonicalIff(s: string)
    requires Decode(s).Ok?
    ensures Encode(Decode(s).value) == s <==> AllDigits(s) && NoLeftoverBits(Values(s))
  {
    if AllDigits(s) {
      SextetsOfFromSextets(Values(s));
      DigitsOfValues(s);
      var t := Sextets(Decode(s).value);
      assert Values(Digits(t)) == t;
    }
  }

  // ---------------------------------------------------------------------------------------------
  // The encoding, bit by bit
  // ---------------------------------------------------------------------------------------------

  /** Table 2 of RFC 4648: the letters in two runs, the digits, and the two characters that are safe in URLs. */
  lemma DigitsAre(v: int)
    requires 0 <= v < 64
    ensures Digit(0) == 'A' && Digit(26) == 'a' && Digit(52) == '0' && Digit(62) == '-' && Digit(63) == '_'
    ensures v < 62 && v != 25 && v != 51 && v != 61 ==> Digit(v + 1) as int == Digit(v) as int + 1
  {
  }

  function Number24(u: int, v: int, w: int, x: int): int { u * 0x4_0000 + v * 0x1000 + w * 0x40 + x }

  function Number24Of(b: int, c: int, d: int): int { b * 0x1_0000 + c * 0x100 + d }

  /** The group of three bytes at i is one 24-bit number, written as the four digits at j, high bits first. */
  predicate GroupAt(data: Bytes, v: seq<sextet>, i: nat, j: nat) {
    i + 3 <= |data| && j + 4 <= |v| &&
    Number24(v[j], v[j + 1], v[j + 2], v[j + 3]) == Number24Of(data[i], data[i + 1], data[i + 2])
  }

  lemma GroupShifts(data: Bytes, v: seq<sextet>, i: nat, j: nat)
    requires |data| >= 3 && |v| >= 4 && GroupAt(data[3..], v[4..], i, j)
    ensures GroupAt(data, v, i + 3, j + 4)
  {
    hide Number24, Number24Of;
  }

  lemma {:induction false} EncodedGroup(data: Bytes, k: nat)
    requires 3 * k + 3 <= |data|
    ensures GroupAt(data, Sextets(data), 3 * k, 4 * k)
    decreases k
  {
    hide High, Middle, Lower, GroupAt, Sextets;
    FirstGroup(data);
    if k > 0 {
      EncodedGroup(data[3..], k - 1);
      GroupShifts(data, Sextets(data), 3 * (k - 1), 4 * (k - 1));
    }
  }

  lemma FirstGroup(data: Bytes)
    requires |data| >= 3
    ensures |Sextets(data)| >= 4 && GroupAt(data, Sextets(data), 0, 0) && Sextets(data)[4..] == Sextets(data[3..])
  {
  }

  /** The text has the digit of each 6-bit value, in order. */
  lemma EncodedDigits(data: Bytes)
    ensures |Encode(data)| == |Sextets(data)| && forall i | 0 <= i < |Sextets(data)| :: Encode(data)[i] == Digit(Sextets(data)[i])
  {
    hide Digit, Sextets;
  }
}
