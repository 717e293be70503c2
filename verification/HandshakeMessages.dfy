/** The four handshake messages a peer encodes, and their hand-written encoders in Rust. */
module HandshakeMessages {
  import opened Wrappers
  import opened ByteStrings
  import opened CanonicalJson
  import opened JsonText
  import Base64Url

  const VERSION := "KEMTLS/1.0"

  function ModeList(modes: seq<string>): Value {
    Arr(seq(|modes|, i requires 0 <= i < |modes| => Str(modes[i])))
  }

  function ClientHello(random: string, identity: string, modes: seq<string>): (message: Value)
    ensures IsMessage(message) && message.Obj?
  {
    assert IsMessage(ModeList(modes));
    Obj([Field("type", Str("ClientHello")),
         Field("version", Str(VERSION)),
         Field("random", Str(random)),
         Field("modes", ModeList(modes)),
         Field("expected_identity", Str(identity))])
  }

  function ClientKeyExchange(ctEphemeral: Bytes, ctLongterm: Bytes): (message: Value)
    ensures IsMessage(message) && message.Obj?
  {
    Obj([Field("type", Str("ClientKeyExchange")),
         Field("ct_ephemeral", Bin(ctEphemeral)),
         Field("ct_longterm", Bin(ctLongterm))])
  }

  function Finished(messageType: string, mac: Bytes): (message: Value)
    ensures IsMessage(message) && message.Obj?
  {
    Obj([Field("type", Str(messageType)), Field("mac", Bin(mac))])
  }

  /** The canonical text of a message: what the Python encoders return. */
  function Text(message: Value): string
    requires IsMessage(message)
  {
    NormalIsNormal(message);
    Write(Normal(message))
  }

  // ---------------------------------------------------------------------------------------------
  // The Rust encoders
  // ---------------------------------------------------------------------------------------------

  /** `serde_json` leaves DEL and all non-ASCII characters as they are. */
  function RustEscape(c: char): string {
    if c == '"' then "\\\""
    else if c == '\\' then "\\\\"
    else if ' ' <= c then [c]
    else if c == '\n' then "\\n"
    else if c == '\r' then "\\r"
    else if c == '\t' then "\\t"
    else if c as int == 8 then "\\b"
    else if c as int == 12 then "\\f"
    else EscapeUnit(c as int)
  }

  function RustChars(s: string): string {
    if s == "" then "" else RustEscape(s[0]) + RustChars(s[1..])
  }

  function RustString(s: string): string {
    "\"" + RustChars(s) + "\""
  }

  function Join(parts: seq<string>): string
    requires parts != []
  {
    if |parts| == 1 then parts[0] else parts[0] + "," + Join(parts[1..])
  }

  function RustStrings(items: seq<string>): (r: seq<string>)
    ensures |r| == |items|
  {
    seq(|items|, i requires 0 <= i < |items| => RustString(items[i]))
  }

  function RustList(items: seq<string>): string {
    if items == [] then "[]" else "[" + Join(RustStrings(items)) + "]"
  }

  /** A field of the format strings: the key in quotes, a colon, and the text of the value. */
  function RustField(key: string, value: string): string {
    "\"" + key + "\":" + value
  }

  function Quoted(s: string): string {
    "\"" + s + "\""
  }

  function Comma(first: string, rest: string): string {
    first + "," + rest
  }

  function Object2(a: string, b: string): string {
    "{" + Comma(a, b) + "}"
  }

  function Object3(a: string, b: string, c: string): string {
    "{" + Comma(a, Comma(b, c)) + "}"
  }

  function Object5(a: string, b: string, c: string, d: string, e: string): string {
    "{" + Comma(a, Comma(b, Comma(c, Comma(d, e)))) + "}"
  }

  function RustClientHello(random: string, identity: string, modes: seq<string>): string {
    Object5(RustField("expected_identity", RustString(identity)), RustField("modes", RustList(modes)),
            RustField("random", RustString(random)), RustField("type", Quoted("ClientHello")),
            RustField("version", Quoted(VERSION)))
  }

  function RustClientKeyExchange(ctEphemeral: Bytes, ctLongterm: Bytes): string {
    Object3(RustField("ct_ephemeral", Quoted(Base64Url.Encode(ctEphemeral))),
            RustField("ct_longterm", Quoted(Base64Url.Encode(ctLongterm))),
            RustField("type", Quoted("ClientKeyExchange")))
  }

  function RustFinished(messageType: string, mac: Bytes): Result<string> {
    if messageType != "ClientFinished" && messageType != "ServerFinished" then Raise(ValueError)
    else Ok(Object2(RustField("mac", Quoted(Base64Url.Encode(mac))), RustField("type", Quoted(messageType))))
  }

  // ---------------------------------------------------------------------------------------------
  // Agreement
  // ---------------------------------------------------------------------------------------------

  predicate IsPlain(s: string) {
    forall i | 0 <= i < |s| :: ' ' <= s[i] <= '~' && s[i] != '"' && s[i] != '\\'
  }

  lemma {:induction false} WritePlain(s: string)
    requires IsPlain(s)
    ensures WriteChars(s) == s
  {
    if s != "" {
      WritePlain(s[1..]);
    }
  }

  lemma Base64IsPlain(data: Bytes)
    ensures WriteChars(Base64Url.Encode(data)) == Base64Url.Encode(data)
  {
    var s := Base64Url.Encode(data);
    forall i | 0 <= i < |s| ensures ' ' <= s[i] <= '~' && s[i] != '"' && s[i] != '\\' {
      assert Base64Url.IsDigit(s[i]);
    }
    WritePlain(s);
  }

  lemma RustEscapeAgrees(c: char)
    requires c as int < 0x7f
    ensures RustEscape(c) == EscapeChar(c)
  {
  }

  lemma {:induction false} RustCharsAgree(s: string)
    requires BelowDel(s)
    ensures RustChars(s) == WriteChars(s)
  {
    if s != "" {
      RustEscapeAgrees(s[0]);
      hide RustEscape, EscapeChar;
      RustCharsAgree(s[1..]);
    }
  }

  lemma {:induction false} RustItemsAgree(items: seq<string>)
    requires items != [] && AllBelowDel(items)
    ensures Join(RustStrings(items)) == WriteItems(ModeList(items).items)
  {
    RustCharsAgree(items[0]);
    var values := ModeList(items).items;
    assert Write(values[0]) == RustString(items[0]);
    if |items| > 1 {
      RustItemsAgree(items[1..]);
      assert values[1..] == ModeList(items[1..]).items;
      assert RustStrings(items)[1..] == RustStrings(items[1..]);
    }
  }

  lemma HighBefore(s: string, t: string)
    requires !BelowDel(s)
    ensures !BelowDel(s + t)
  {
    var k :| 0 <= k < |s| && s[k] as int >= 0x7f;
    assert (s + t)[k] == s[k];
  }

  lemma HighAfter(t: string, s: string)
    requires !BelowDel(s)
    ensures !BelowDel(t + s)
  {
    var k :| 0 <= k < |s| && s[k] as int >= 0x7f;
    assert (t + s)[|t| + k] == s[k];
  }

  /** A character at or above DEL stays in the Rust text. */
  lemma {:induction false} RustCharsKeepHigh(s: string)
    requires !BelowDel(s)
    ensures !BelowDel(RustChars(s))
  {
    if s[0] as int >= 0x7f {
      assert RustChars(s)[0] == s[0];
    } else {
      assert !BelowDel(s[1..]) by {
        var k :| 0 <= k < |s| && s[k] as int >= 0x7f;
        assert s[1..][k - 1] == s[k];
      }
      RustCharsKeepHigh(s[1..]);
      HighAfter(RustEscape(s[0]), RustChars(s[1..]));
    }
  }

  lemma RustStringKeepsHigh(s: string)
    requires !BelowDel(s)
    ensures !BelowDel(RustString(s))
  {
    hide RustChars;
    RustCharsKeepHigh(s);
    HighAfter("\"", RustChars(s));
    HighBefore("\"" + RustChars(s), "\"");
  }

  lemma {:induction false} JoinKeepsHigh(parts: seq<string>, i: nat)
    requires i < |parts| && !BelowDel(parts[i])
    ensures !BelowDel(Join(parts))
  {
    if i == 0 {
      HighBefore(parts[0], ",");
      if |parts| > 1 {
        HighBefore(parts[0] + ",", Join(parts[1..]));
      }
    } else {
      JoinKeepsHigh(parts[1..], i - 1);
      HighAfter(parts[0] + ",", Join(parts[1..]));
    }
  }

  predicate AllBelowDel(items: seq<string>) {
    forall i | 0 <= i < |items| :: BelowDel(items[i])
  }

  lemma RustListKeepsHigh(items: seq<string>)
    requires !AllBelowDel(items)
    ensures !BelowDel(RustList(items))
  {
    hide Join;
    var i :| 0 <= i < |items| && !BelowDel(items[i]);
    RustStringKeepsHigh(items[i]);
    JoinKeepsHigh(RustStrings(items), i);
    HighAfter("[", Join(RustStrings(items)));
    HighBefore("[" + Join(RustStrings(items)), "]");
  }

  /** What sorting makes of the fields of a message, given in the order it makes. */
  lemma NormalMessage(message: Value, sorted: seq<Field>)
    requires IsMessage(message) && message.Obj?
    requires forall i | 0 <= i < |sorted| - 1 :: Less(sorted[i].key, sorted[i + 1].key)
    requires |message.fields| == |sorted|
    requires forall i | 0 <= i < |sorted| :: NormalFields(message.fields)[i] in sorted
    ensures Normal(message) == Obj(sorted)
  {
    SortedFromNeighbours(sorted);
    SortIs(NormalFields(message.fields), sorted);
  }

  lemma KeyOrder()
    ensures Less("expected_identity", "modes") && Less("modes", "random") && Less("random", "type")
    ensures Less("type", "version") && Less("ct_ephemeral", "ct_longterm") && Less("ct_longterm", "type")
    ensures Less("mac", "type")
  {
    LessAt("expected_identity", "modes", 0);
    LessAt("modes", "random", 0);
    LessAt("random", "type", 0);
    LessAt("type", "version", 0);
    LessAt("ct_ephemeral", "ct_longterm", 3);
    LessAt("ct_longterm", "type", 0);
    LessAt("mac", "type", 0);
  }

  lemma ModeListIsNormal(modes: seq<string>)
    ensures Normal(ModeList(modes)) == ModeList(modes)
  {
    NormalIdempotent(ModeList(modes));
  }

  lemma NormalClientHello(random: string, identity: string, modes: seq<string>)
    ensures Normal(ClientHello(random, identity, modes)) ==
            Obj([Field("expected_identity", Str(identity)), Field("modes", ModeList(modes)),
                 Field("random", Str(random)), Field("type", Str("ClientHello")), Field("version", Str(VERSION))])
  {
    hide Less, Normal, NormalFields, IsMessage, ModeList, IsNormal;
    var a, b, c := Field("type", Str("ClientHello")), Field("version", Str(VERSION)), Field("random", Str(random));
    var d, e := Field("modes", ModeList(modes)), Field("expected_identity", Str(identity));
    ModeListIsNormal(modes);
    NormalText();
    KeyOrder();
    var message := ClientHello(random, identity, modes);
    assert message.fields == [a, b, c, d, e];
    var sorted := [e, d, c, a, b];
    assert sorted[3] == a && sorted[4] == b && sorted[2] == c && sorted[1] == d && sorted[0] == e;
    NormalMessage(message, sorted);
  }

  lemma NormalText()
    ensures forall s {:trigger Normal(Str(s))} :: Normal(Str(s)) == Str(s)
    ensures forall b {:trigger Normal(Bin(b))} :: Normal(Bin(b)) == Str(Base64Url.Encode(b))
  {
  }

  lemma NormalClientKeyExchange(ctEphemeral: Bytes, ctLongterm: Bytes)
    ensures Normal(ClientKeyExchange(ctEphemeral, ctLongterm)) ==
            Obj([Field("ct_ephemeral", Str(Base64Url.Encode(ctEphemeral))),
                 Field("ct_longterm", Str(Base64Url.Encode(ctLongterm))), Field("type", Str("ClientKeyExchange"))])
  {
    var a := Field("type", Str("ClientKeyExchange"));
    var b := Field("ct_ephemeral", Str(Base64Url.Encode(ctEphemeral)));
    var c := Field("ct_longterm", Str(Base64Url.Encode(ctLongterm)));
    NormalText();
    KeyOrder();
    hide Less, Normal, NormalFields, IsMessage;
    var message := ClientKeyExchange(ctEphemeral, ctLongterm);
    assert NormalFields(message.fields) == [a, b, c];
    NormalMessage(message, [b, c, a]);
  }

  lemma NormalFinished(messageType: string, mac: Bytes)
    ensures Normal(Finished(messageType, mac)) ==
            Obj([Field("mac", Str(Base64Url.Encode(mac))), Field("type", Str(messageType))])
  {
    var a, b := Field("type", Str(messageType)), Field("mac", Str(Base64Url.Encode(mac)));
    NormalText();
    KeyOrder();
    hide Less, Normal, NormalFields, IsMessage;
    var message := Finished(messageType, mac);
    assert NormalFields(message.fields) == [a, b];
    NormalMessage(message, [b, a]);
  }

  /** The text of a field whose key needs no escape. */
  lemma WrittenField(key: string, v: Value)
    requires IsNormal(v) && IsPlain(key)
    ensures WriteField(Field(key, v)) == RustField(key, Write(v))
  {
    WritePlain(key);
  }

  lemma KeysArePlain()
    ensures IsPlain("expected_identity") && IsPlain("modes") && IsPlain("random") && IsPlain("type")
    ensures IsPlain("version") && IsPlain("ct_ephemeral") && IsPlain("ct_longterm") && IsPlain("mac")
  {
  }

  lemma ConstantTexts(s: string)
    requires s == "ClientHello" || s == VERSION || s == "ClientKeyExchange" || s == "ClientFinished" || s == "ServerFinished"
    ensures WriteString(s) == Quoted(s)
  {
    assert IsPlain(s);
    WritePlain(s);
  }

  lemma WriteText()
    ensures forall s {:trigger Write(Str(s))} :: Write(Str(s)) == WriteString(s)
  {
  }

  /** A base64url value is written without escapes. */
  lemma WriteBase64(data: Bytes)
    ensures WriteString(Base64Url.Encode(data)) == Quoted(Base64Url.Encode(data))
  {
    Base64IsPlain(data);
  }

  lemma WriteFieldsStep(fields: seq<Field>, i: nat)
    requires i + 1 < |fields| && forall k | 0 <= k < |fields| :: IsNormal(fields[k].val)
    ensures WriteFields(fields[i..]) == Comma(WriteField(fields[i]), WriteFields(fields[i + 1..]))
  {
    assert fields[i..][1..] == fields[i + 1..];
  }

  lemma WriteFieldsEnd(fields: seq<Field>, i: nat)
    requires i + 1 == |fields| && IsNormal(fields[i].val)
    ensures WriteFields(fields[i..]) == WriteField(fields[i])
  {
  }

  lemma Text2(message: Value, k0: string, v0: Value, k1: string, v1: Value)
    requires IsMessage(message) && Normal(message) == Obj([Field(k0, v0), Field(k1, v1)])
    requires IsNormal(v0) && IsNormal(v1) && IsPlain(k0) && IsPlain(k1)
    ensures Text(message) == Object2(RustField(k0, Write(v0)), RustField(k1, Write(v1)))
  {
    var fields := [Field(k0, v0), Field(k1, v1)];
    WrittenField(k0, v0);
    WrittenField(k1, v1);
    hide WriteField, Normal, Comma, IsPlain, RustField;
    assert fields[0..] == fields;
    WriteFieldsStep(fields, 0);
    WriteFieldsEnd(fields, 1);
  }

  lemma Text3(message: Value, k0: string, v0: Value, k1: string, v1: Value, k2: string, v2: Value)
    requires IsMessage(message) && Normal(message) == Obj([Field(k0, v0), Field(k1, v1), Field(k2, v2)])
    requires IsNormal(v0) && IsNormal(v1) && IsNormal(v2) && IsPlain(k0) && IsPlain(k1) && IsPlain(k2)
    ensures Text(message) == Object3(RustField(k0, Write(v0)), RustField(k1, Write(v1)), RustField(k2, Write(v2)))
  {
    var fields := [Field(k0, v0), Field(k1, v1), Field(k2, v2)];
    WrittenField(k0, v0);
    WrittenField(k1, v1);
    WrittenField(k2, v2);
    hide WriteField, Normal, Comma, IsPlain, RustField;
    assert fields[0..] == fields;
    WriteFieldsStep(fields, 0);
    WriteFieldsStep(fields, 1);
    WriteFieldsEnd(fields, 2);
  }

  lemma Text5(message: Value, fields: seq<Field>)
    requires IsMessage(message) && Normal(message) == Obj(fields) && |fields| == 5
    requires forall k | 0 <= k < |fields| :: IsNormal(fields[k].val)
    ensures Text(message) == Object5(WriteField(fields[0]), WriteField(fields[1]), WriteField(fields[2]),
                                     WriteField(fields[3]), WriteField(fields[4]))
  {
    hide WriteField, Normal, Comma, IsPlain, RustField;
    assert fields[0..] == fields;
    WriteFieldsStep(fields, 0);
    WriteFieldsStep(fields, 1);
    WriteFieldsStep(fields, 2);
    WriteFieldsStep(fields, 3);
    WriteFieldsEnd(fields, 4);
  }

  /** The Rust encoder of ClientKeyExchange gives the canonical bytes, for all ciphertexts. */
  lemma RustClientKeyExchangeAgrees(ctEphemeral: Bytes, ctLongterm: Bytes)
    ensures RustClientKeyExchange(ctEphemeral, ctLongterm) == Text(ClientKeyExchange(ctEphemeral, ctLongterm))
  {
    hide WriteString, Write, Normal, NormalFields, IsMessage, IsPlain, Quoted, RustField, Text, Comma, IsNormal,
         ClientKeyExchange;
    NormalClientKeyExchange(ctEphemeral, ctLongterm);
    var x, y := Base64Url.Encode(ctEphemeral), Base64Url.Encode(ctLongterm);
    WriteBase64(ctEphemeral);
    WriteBase64(ctLongterm);
    ConstantTexts("ClientKeyExchange");
    KeysArePlain();
    WriteText();
    NormalTextIsNormal();
    Text3(ClientKeyExchange(ctEphemeral, ctLongterm), "ct_ephemeral", Str(x), "ct_longterm", Str(y), "type",
          Str("ClientKeyExchange"));
  }

  /** The Rust encoder of the Finished messages gives the canonical bytes, for every MAC. */
  lemma RustFinishedAgrees(messageType: string, mac: Bytes)
    requires messageType == "ClientFinished" || messageType == "ServerFinished"
    ensures RustFinished(messageType, mac) == Ok(Text(Finished(messageType, mac)))
  {
    NormalFinished(messageType, mac);
    var x := Base64Url.Encode(mac);
    WriteBase64(mac);
    ConstantTexts(messageType);
    KeysArePlain();
    WriteText();
    NormalTextIsNormal();
    hide WriteString, Write, Normal, NormalFields, IsMessage, IsPlain, Quoted, RustField, Text, Comma, IsNormal,
         Finished;
    Text2(Finished(messageType, mac), "mac", Str(x), "type", Str(messageType));
  }

  lemma RustStringsAgree(random: string, identity: string, modes: seq<string>)
    requires BelowDel(random) && BelowDel(identity) && AllBelowDel(modes)
    ensures RustString(random) == WriteString(random)
    ensures RustString(identity) == WriteString(identity)
    ensures IsNormal(ModeList(modes)) && RustList(modes) == Write(ModeList(modes))
  {
    RustCharsAgree(random);
    RustCharsAgree(identity);
    if modes != [] {
      RustItemsAgree(modes);
    }
  }

  lemma ClientHelloText(random: string, identity: string, modes: seq<string>)
    ensures IsNormal(ModeList(modes))
    ensures Text(ClientHello(random, identity, modes)) ==
            Object5(WriteField(Field("expected_identity", Str(identity))), WriteField(Field("modes", ModeList(modes))),
                    WriteField(Field("random", Str(random))), WriteField(Field("type", Str("ClientHello"))),
                    WriteField(Field("version", Str(VERSION))))
  {
    assert IsNormal(ModeList(modes));
    NormalClientHello(random, identity, modes);
    NormalTextIsNormal();
    hide Write, Normal, NormalFields, IsMessage, Text, Object5, ModeList, IsNormal, ClientHello, WriteField;
    var fields := Normal(ClientHello(random, identity, modes)).fields;
    FiveNormal(fields);
    Text5(ClientHello(random, identity, modes), fields);
  }

  lemma RustClientHelloAgrees(random: string, identity: string, modes: seq<string>)
    requires BelowDel(random) && BelowDel(identity) && AllBelowDel(modes)
    ensures RustClientHello(random, identity, modes) == Text(ClientHello(random, identity, modes))
  {
    hide WriteString, Write, IsPlain, Quoted, RustField, Text, Object5, RustString, RustList, ModeList, IsNormal,
         ClientHello, WriteField;
    ClientHelloText(random, identity, modes);
    RustStringsAgree(random, identity, modes);
    ConstantTexts("ClientHello");
    ConstantTexts(VERSION);
    KeysArePlain();
    WriteText();
    NormalTextIsNormal();
    WrittenField("expected_identity", Str(identity));
    WrittenField("modes", ModeList(modes));
    WrittenField("random", Str(random));
    WrittenField("type", Str("ClientHello"));
    WrittenField("version", Str(VERSION));
  }

  lemma FiveNormal(fields: seq<Field>)
    requires |fields| == 5
    requires IsNormal(fields[0].val) && IsNormal(fields[1].val) && IsNormal(fields[2].val)
    requires IsNormal(fields[3].val) && IsNormal(fields[4].val)
    ensures forall k | 0 <= k < |fields| :: IsNormal(fields[k].val)
  {
  }

  lemma NormalTextIsNormal()
    ensures forall s {:trigger IsNormal(Str(s))} :: IsNormal(Str(s))
  {
  }

  lemma CommaKeepsHigh(first: string, rest: string)
    requires !BelowDel(first) || !BelowDel(rest)
    ensures !BelowDel(Comma(first, rest))
  {
    if !BelowDel(first) {
      HighBefore(first, ",");
      HighBefore(first + ",", rest);
    } else {
      HighAfter(first + ",", rest);
    }
  }

  lemma RustFieldKeepsHigh(key: string, value: string)
    requires !BelowDel(value)
    ensures !BelowDel(RustField(key, value))
  {
    HighAfter("\"" + key + "\":", value);
  }

  lemma RustClientHelloKeepsHigh(random: string, identity: string, modes: seq<string>)
    requires !(BelowDel(random) && BelowDel(identity) && AllBelowDel(modes))
    ensures !BelowDel(RustClientHello(random, identity, modes))
  {
    hide RustString, RustList, BelowDel, AllBelowDel, RustField, Comma, Quoted;
    var a := RustField("expected_identity", RustString(identity));
    var b := RustField("modes", RustList(modes));
    var c := RustField("random", RustString(random));
    var d := Comma(RustField("type", Quoted("ClientHello")), RustField("version", Quoted(VERSION)));
    if !BelowDel(identity) {
      RustStringKeepsHigh(identity);
      RustFieldKeepsHigh("expected_identity", RustString(identity));
    } else {
      if !BelowDel(random) {
        RustStringKeepsHigh(random);
        RustFieldKeepsHigh("random", RustString(random));
        CommaKeepsHigh(c, d);
      } else {
        RustListKeepsHigh(modes);
        RustFieldKeepsHigh("modes", RustList(modes));
      }
      CommaKeepsHigh(b, Comma(c, d));
    }
    CommaKeepsHigh(a, Comma(b, Comma(c, d)));
    HighAfter("{", Comma(a, Comma(b, Comma(c, d))));
    HighBefore("{" + Comma(a, Comma(b, Comma(c, d))), "}");
  }

  /**
    The Rust encoder of ClientHello gives the canonical bytes exactly when no string holds DEL or
    a character outside ASCII: the canonical encoder escapes those, the Rust one does not.
  */
  lemma RustClientHelloAgreesIff(random: string, identity: string, modes: seq<string>)
    ensures RustClientHello(random, identity, modes) == Text(ClientHello(random, identity, modes)) <==>
            BelowDel(random) && BelowDel(identity) && AllBelowDel(modes)
  {
    if BelowDel(random) && BelowDel(identity) && AllBelowDel(modes) {
      RustClientHelloAgrees(random, identity, modes);
    } else {
      RustClientHelloKeepsHigh(random, identity, modes);
      assert BelowDel(Text(ClientHello(random, identity, modes)));
    }
  }
}
