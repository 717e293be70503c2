/** Text as UTF-8 bytes, as Python's strict codec reads and writes it. */
module Utf8 {
  import opened Wrappers
  import opened ByteStrings

  function EncodeChar(ch: char): (b: Bytes)
    ensures 1 <= |b| <= 4
  {
    var u := ch as int;
    if u < 0x80 then [u]
    else if u < 0x800 then [0xC0 + u / 0x40, 0x80 + u % 0x40]
    else if u < 0x1_0000 then [0xE0 + u / 0x1000, 0x80 + u / 0x40 % 0x40, 0x80 + u % 0x40]
    else [0xF0 + u / 0x4_0000, 0x80 + u / 0x1000 % 0x40, 0x80 + u / 0x40 % 0x40, 0x80 + u % 0x40]
  }

  /** `text.encode("utf-8")`. */
  function Encode(s: string): Bytes {
    if s == "" then [] else EncodeChar(s[0]) + Encode(s[1..])
  }

  predicate IsContinuation(b: byte) {
    0x80 <= b < 0xC0
  }

  /** A code point that is no surrogate, in its shortest form, and how many bytes it takes. */
  datatype First = Malformed | First(ch: char, length: nat)

  function CharOf(u: int, least: nat, length: nat): First {
    if least <= u < 0x11_0000 && !(0xD800 <= u < 0xE000) then First(u as char, length) else Malformed
  }

  function FirstChar(b: Bytes): (r: First)
    ensures r.First? ==> 1 <= r.length <= |b|
  {
    if b == [] then Malformed
    else
      var lead: int := b[0];
      if lead < 0x80 then First(lead as char, 1)
      else if lead < 0xC0 then Malformed
      else if lead < 0xE0 then
        if |b| < 2 || !IsContinuation(b[1]) then Malformed
        else CharOf((lead - 0xC0) * 0x40 + Low(b[1]), 0x80, 2)
      else if lead < 0xF0 then
        if |b| < 3 || !IsContinuation(b[1]) || !IsContinuation(b[2]) then Malformed
        else CharOf((lead - 0xE0) * 0x1000 + Low(b[1]) * 0x40 + Low(b[2]), 0x800, 3)
      else if lead < 0xF8 then
        if |b| < 4 || !IsContinuation(b[1]) || !IsContinuation(b[2]) || !IsContinuation(b[3]) then Malformed
        else CharOf((lead - 0xF0) * 0x4_0000 + Low(b[1]) * 0x1000 + Low(b[2]) * 0x40 + Low(b[3]), 0x1_0000, 4)
      else Malformed
  }

  /** The six bits of a continuation byte. */
  function Low(b: byte): int {
    var bits: int := b;
    bits - 0x80
  }

  /** `data.decode("utf-8")`. */
  function Decode(b: Bytes): Result<string>
    decreases |b|
  {
    if b == [] then Ok("")
    else
      match FirstChar(b)
      case Malformed => Raise(ValueError)
      case First(ch, length) =>
        var rest :- Decode(b[length..]);
        Ok([ch] + rest)
  }

  lemma FirstCharExtends(b: Bytes, more: Bytes)
    requires FirstChar(b).First?
    ensures FirstChar(b + more) == FirstChar(b)
  {
  }

  /** The texts of two byte strings are the text of their concatenation. */
  lemma {:induction false} DecodeOfConcat(a: Bytes, b: Bytes)
    requires Decode(a).Ok? && Decode(b).Ok?
    ensures Decode(a + b) == Ok(Decode(a).value + Decode(b).value)
    decreases |a|
  {
    hide FirstChar;
    if a == [] {
      assert a + b == b;
      assert "" + Decode(b).value == Decode(b).value;
    } else {
      FirstCharExtends(a, b);
      var n := FirstChar(a).length;
      DecodeOfConcat(a[n..], b);
      assert (a + b)[n..] == a[n..] + b;
      var x, y := Decode(a[n..]).value, Decode(b).value;
      assert [FirstChar(a).ch] + (x + y) == [FirstChar(a).ch] + x + y;
    }
  }

  lemma TwoBytes(u: int)
    requires 0x80 <= u < 0x800
    ensures FirstChar([0xC0 + u / 0x40, 0x80 + u % 0x40]) == First(u as char, 2)
  {
    assert u == u / 0x40 * 0x40 + u % 0x40;
  }

  lemma ThreeBytes(u: int)
    requires 0x800 <= u < 0x1_0000 && !(0xD800 <= u < 0xE000)
    ensures FirstChar([0xE0 + u / 0x1000, 0x80 + u / 0x40 % 0x40, 0x80 + u % 0x40]) == First(u as char, 3)
  {
    assert u == u / 0x1000 * 0x1000 + u / 0x40 % 0x40 * 0x40 + u % 0x40;
  }

  lemma FourBytes(u: int)
    requires 0x1_0000 <= u < 0x11_0000
    ensures FirstChar([0xF0 + u / 0x4_0000, 0x80 + u / 0x1000 % 0x40, 0x80 + u / 0x40 % 0x40, 0x80 + u % 0x40]) == First(u as char, 4)
  {
    assert u == u / 0x4_0000 * 0x4_0000 + u / 0x1000 % 0x40 * 0x1000 + u / 0x40 % 0x40 * 0x40 + u % 0x40;
  }

  lemma FirstOfEncoded(ch: char)
    ensures FirstChar(EncodeChar(ch)) == First(ch, |EncodeChar(ch)|)
  {
    hide FirstChar;
    var u := ch as int;
    if u >= 0x1_0000 {
      FourBytes(u);
    } else if u >= 0x800 {
      ThreeBytes(u);
    } else if u >= 0x80 {
      TwoBytes(u);
    } else {
      OneByte(u);
    }
  }

  lemma OneByte(u: int)
    requires 0 <= u < 0x80
    ensures FirstChar([u]) == First(u as char, 1)
  {
  }

  /** Decoding undoes encoding, for every text. */
  lemma {:induction false} RoundTrip(s: string)
    ensures Decode(Encode(s)) == Ok(s)
  {
    hide FirstChar, EncodeChar;
    if s != "" {
      RoundTrip(s[1..]);
      FirstOfEncoded(s[0]);
      var first, rest := EncodeChar(s[0]), Encode(s[1..]);
      FirstCharExtends(first, rest);
      assert (first + rest)[|first|..] == rest;
      assert [s[0]] + s[1..] == s;
    }
  }

  /** ASCII text is its own UTF-8. */
  lemma {:induction false} EncodeAscii(s: string)
    requires IsAscii(s)
    ensures Encode(s) == Ascii(s)
  {
    if s != "" {
      EncodeAscii(s[1..]);
      assert Ascii(s) == [s[0] as int] + Ascii(s[1..]);
    }
  }

  lemma DecodeAscii(s: string)
    requires IsAscii(s)
    ensures Decode(Ascii(s)) == Ok(s)
  {
    EncodeAscii(s);
    RoundTrip(s);
  }

  lemma Injective(s: string, t: string)
    requires Encode(s) == Encode(t)
    ensures s == t
  {
    RoundTrip(s);
    RoundTrip(t);
  }
}
