/** Messages as bytes, and what a concatenation of messages with no length prefix determines. */
module Messages {
  import opened Wrappers
  import opened ByteStrings
  import opened CanonicalJson
  import opened JsonText
  import Utf8

  function Serialize(message: Value): (r: Result<Bytes>)
    requires IsMessage(message)
    ensures r.Ok? <==> message.Obj?
  {
    if message.Obj? then
      NormalIsNormal(message);
      Ok(Ascii(Write(Normal(message))))
    else Raise(TypeError)
  }

  function Deserialize(data: Bytes): Result<Value> {
    var text :- Utf8.Decode(data);
    Parse(text)
  }

  /** Reading back a message gives it with every bytes value replaced by its base64url text. */
  lemma RoundTrip(message: Value)
    requires IsMessage(message) && message.Obj?
    ensures Deserialize(Serialize(message).value) == Ok(Normal(message))
  {
    NormalIsNormal(message);
    var n := Normal(message);
    Utf8.DecodeAscii(Write(n));
    WrittenStarts(n);
    ScanWritten(n, "");
    assert Write(n) + "" == Write(n);
  }

  /** Messages have the same bytes exactly when they have the same normal form. */
  lemma SerializeInjective(a: Value, b: Value)
    requires IsMessage(a) && a.Obj? && IsMessage(b) && b.Obj?
    ensures Serialize(a) == Serialize(b) <==> Normal(a) == Normal(b)
  {
    RoundTrip(a);
    RoundTrip(b);
  }

  /** Equal dictionaries have equal bytes, whatever order their keys were inserted in. */
  lemma InsertionOrderIrrelevant(a: Value, b: Value)
    requires IsMessage(a) && a.Obj? && IsMessage(b) && b.Obj?
    requires SameMessage(a, b)
    ensures Serialize(a) == Serialize(b)
  {
    SameMessageNormal(a, b);
  }

  // ---------------------------------------------------------------------------------------------
  // What the scanner accepts is a message
  // ---------------------------------------------------------------------------------------------

  lemma {:induction false} AssignDistinct(fields: seq<Field>, f: Field)
    requires Distinct(fields)
    ensures Distinct(Assign(fields, f))
    ensures forall g | g in Assign(fields, f) :: g == f || g in fields
  {
    if fields != [] && fields[0].key != f.key {
      AssignDistinct(fields[1..], f);
      var r := Assign(fields[1..], f);
      forall j | 0 <= j < |r| ensures fields[0].key != r[j].key {
        assert r[j] in r;
      }
    }
  }

  lemma {:induction false} ToDictionaryDistinct(fields: seq<Field>)
    ensures Distinct(ToDictionary(fields))
    ensures forall g | g in ToDictionary(fields) :: g in fields
  {
    if fields != [] {
      var init := fields[..|fields| - 1];
      ToDictionaryDistinct(init);
      AssignDistinct(ToDictionary(init), fields[|fields| - 1]);
    }
  }

  lemma {:induction false} ScannedIsMessage(s: string)
    ensures ScanValue(s).Scanned? ==> IsMessage(ScanValue(s).value)
    decreases |s|, 0
  {
    hide ScanChars, ScanFields, ScanItems, ToDictionary;
    if s != "" && s[0] == '{' {
      var t := SkipSpace(s[1..]);
      ScannedFieldsAreMessages(t);
      if ScanFields(t).Scanned? {
        var fields := ScanFields(t).value;
        ToDictionaryDistinct(fields);
        forall i | 0 <= i < |ToDictionary(fields)| ensures IsMessage(ToDictionary(fields)[i].val) {
          assert ToDictionary(fields)[i] in fields;
        }
      }
    } else if s != "" && s[0] == '[' {
      ScannedItemsAreMessages(SkipSpace(s[1..]));
    } else {
      SimpleIsMessage(s);
    }
  }

  lemma SimpleIsMessage(s: string)
    requires s == "" || (s[0] != '{' && s[0] != '[')
    ensures ScanValue(s).Scanned? ==> IsMessage(ScanValue(s).value)
  {
    hide ScanChars, ScanNat;
  }

  lemma {:induction false} ScannedItemsAreMessages(s: string)
    ensures ScanItems(s).Scanned? ==> forall v | v in ScanItems(s).value :: IsMessage(v)
    decreases |s|, 1
  {
    hide ScanValue;
    ScannedIsMessage(s);
    if ScanValue(s).Scanned? {
      var t := SkipSpace(ScanValue(s).rest);
      if t != "" {
        ScannedItemsAreMessages(SkipSpace(t[1..]));
      }
    }
  }

  lemma {:induction false} ScannedFieldsAreMessages(s: string)
    ensures ScanFields(s).Scanned? ==> forall f | f in ScanFields(s).value :: IsMessage(f.val)
    decreases |s|, 2
  {
    hide ScanValue, ScanChars;
    if ScanField(s).Scanned? {
      var u := SkipSpace(ScanChars(s[1..]).rest);
      ScannedIsMessage(SkipSpace(u[1..]));
      var t := SkipSpace(ScanField(s).rest);
      if t != "" {
        ScannedFieldsAreMessages(SkipSpace(t[1..]));
      }
    }
  }

  /** Dictionaries that come out of deserialisation have distinct keys. */
  lemma DeserializedIsMessage(data: Bytes)
    requires Deserialize(data).Ok?
    ensures IsMessage(Deserialize(data).value)
  {
    hide ScanValue;
    ScannedIsMessage(SkipSpace(Utf8.Decode(data).value));
  }

  // ---------------------------------------------------------------------------------------------
  // A scan that succeeded is not changed by text that follows
  // ---------------------------------------------------------------------------------------------

  lemma {:induction false} SkipSpaceExtends(s: string, t: string)
    requires SkipSpace(s) != ""
    ensures SkipSpace(s + t) == SkipSpace(s) + t
  {
    if IsSpace(s[0]) {
      assert (s + t)[1..] == s[1..] + t;
      SkipSpaceExtends(s[1..], t);
    }
  }

  lemma {:induction false} SkipOnlySpace(s: string, t: string)
    requires SkipSpace(s) == ""
    ensures SkipSpace(s + t) == SkipSpace(t)
  {
    if s == "" {
      assert s + t == t;
    } else {
      assert (s + t)[1..] == s[1..] + t;
      SkipOnlySpace(s[1..], t);
    }
  }

  lemma ScanUnitExtends(s: string, t: string)
    requires ScanUnit(s) >= 0
    ensures ScanUnit(s + t) == ScanUnit(s)
    ensures (s + t)[6..] == s[6..] + t
  {
    hide HexValue;
  }

  lemma ScanCharExtends(s: string, t: string)
    requires s != "" && ScanChar(s).Scanned?
    ensures ScanChar(s + t) == Scanned(ScanChar(s).value, ScanChar(s).rest + t)
  {
    hide ScanUnit;
    if (s[0] as int) >= 0x20 && s[0] != '\\' {
      assert (s + t)[1..] == s[1..] + t;
    } else {
      assert (s + t)[2..] == s[2..] + t;
      if ScanEscapedUnits(s).Scanned? {
        var u := ScanUnit(s);
        ScanUnitExtends(s, t);
        if 0xD800 <= u < 0xE000 {
          ScanUnitExtends(s[6..], t);
          assert s[12..] + t == (s + t)[12..];
        }
      }
    }
  }

  lemma {:induction false} ScanCharsExtends(s: string, t: string)
    requires ScanChars(s).Scanned?
    ensures ScanChars(s + t) == Scanned(ScanChars(s).value, ScanChars(s).rest + t)
    decreases |s|
  {
    hide ScanChar;
    if s[0] == '"' {
      assert (s + t)[1..] == s[1..] + t;
    } else {
      ScanCharExtends(s, t);
      ScanCharsExtends(ScanChar(s).rest, t);
    }
  }

  lemma {:induction false} ScanDigitsExtends(s: string, acc: nat, t: string)
    requires ScanDigits(s, acc).1 != ""
    ensures ScanDigits(s + t, acc) == (ScanDigits(s, acc).0, ScanDigits(s, acc).1 + t)
  {
    if StartsWithDigit(s) {
      assert (s + t)[1..] == s[1..] + t;
      ScanDigitsExtends(s[1..], acc * 10 + (s[0] as int - '0' as int), t);
    }
  }

  lemma ScanNatExtends(s: string, t: string)
    requires ScanNat(s).Scanned? && ScanNat(s).rest != ""
    ensures ScanNat(s + t) == Scanned(ScanNat(s).value, ScanNat(s).rest + t)
  {
    hide ScanDigits;
    if s[0] == '0' {
      assert (s + t)[1..] == s[1..] + t;
    } else {
      ScanDigitsExtends(s, 0, t);
    }
  }

  lemma ScanNumberExtends(s: string, t: string)
    requires ScanNumber(s).Scanned? && ScanNumber(s).rest != ""
    ensures ScanNumber(s + t) == Scanned(ScanNumber(s).value, ScanNumber(s).rest + t)
  {
    hide ScanNat;
    if s != "" && s[0] == '-' {
      assert (s + t)[1..] == s[1..] + t;
      ScanNatExtends(s[1..], t);
    } else {
      ScanNatExtends(s, t);
      assert s != "" ==> (s + t)[0] == s[0];
      assert s == "" ==> ScanNat(s) == Malformed by { EmptyIsNoNumber(); }
    }
  }

  lemma EmptyIsNoNumber()
    ensures ScanNat("") == Malformed
  {
  }

  /** The scanned value is not an integer that the text ends with. */
  predicate Delimited(r: Scan<Value>) { r.Scanned? && (r.value.Int? ==> r.rest != "") }

  lemma ScanSimpleExtends(s: string, t: string)
    requires Delimited(ScanValue(s))
    requires s != "" && s[0] != '{' && s[0] != '['
    ensures ScanValue(s + t) == Scanned(ScanValue(s).value, ScanValue(s).rest + t)
  {
    hide ScanChars, ScanNumber, ScanFields, ScanItems;
    assert (s + t)[0] == s[0];
    if s[0] == '"' {
      assert (s + t)[1..] == s[1..] + t;
      ScanCharsExtends(s[1..], t);
    } else if "null" <= s || "true" <= s {
      assert (s + t)[4..] == s[4..] + t;
    } else if "false" <= s {
      assert (s + t)[5..] == s[5..] + t;
    } else {
      ScanNumberIsInt(s);
      ScanNumberExtends(s, t);
      NumberIsNoLiteral(s, t);
    }
  }

  lemma ScanNumberIsInt(s: string)
    requires ScanNumber(s).Scanned?
    ensures ScanNumber(s).value.Int?
    ensures s != "" && (s[0] == '-' || StartsWithDigit(s))
  {
  }

  lemma NumberIsNoLiteral(s: string, t: string)
    requires s != "" && (s[0] == '-' || StartsWithDigit(s))
    ensures !("null" <= s + t) && !("true" <= s + t) && !("false" <= s + t)
  {
    assert (s + t)[0] == s[0];
  }

  lemma {:induction false} ScanValueExtends(s: string, t: string)
    requires Delimited(ScanValue(s))
    ensures ScanValue(s + t) == Scanned(ScanValue(s).value, ScanValue(s).rest + t)
    decreases |s|, 0
  {
    hide ScanChars, ScanNumber, ScanFields, ScanItems, ToDictionary;
    if s[0] == '{' || s[0] == '[' {
      var u := SkipSpace(s[1..]);
      assert (s + t)[1..] == s[1..] + t;
      if u == "" {
        NothingToScan();
      } else {
        SkipSpaceExtends(s[1..], t);
        if (s[0] == '{' && u[0] == '}') || (s[0] == '[' && u[0] == ']') {
          assert (u + t)[1..] == u[1..] + t;
        } else if s[0] == '{' {
          ScanFieldsExtends(u, t);
        } else {
          ScanItemsExtends(u, t);
        }
      }
    } else {
      ScanSimpleExtends(s, t);
    }
  }

  lemma NothingToScan()
    ensures ScanFields("") == Malformed
    ensures ScanItems("") == Malformed
  {
  }

  lemma {:induction false} ScanItemsExtends(s: string, t: string)
    requires ScanItems(s).Scanned?
    ensures ScanItems(s + t) == Scanned(ScanItems(s).value, ScanItems(s).rest + t)
    decreases |s|, 1
  {
    hide ScanValue;
    var rest := ScanValue(s).rest;
    var u := SkipSpace(rest);
    ScanValueExtends(s, t);
    SkipSpaceExtends(rest, t);
    assert (u + t)[1..] == u[1..] + t;
    if u[0] == ',' {
      var w := SkipSpace(u[1..]);
      if w == "" {
        NothingToScan();
      } else {
        SkipSpaceExtends(u[1..], t);
        ScanItemsExtends(w, t);
      }
    }
  }

  lemma {:induction false} ScanFieldExtends(s: string, t: string)
    requires ScanField(s).Scanned?
    requires ScanField(s).value.val.Int? ==> ScanField(s).rest != ""
    ensures ScanField(s + t) == Scanned(ScanField(s).value, ScanField(s).rest + t)
    decreases |s|, 1
  {
    hide ScanValue, ScanChars;
    assert (s + t)[1..] == s[1..] + t;
    ScanCharsExtends(s[1..], t);
    var rest := ScanChars(s[1..]).rest;
    var u := SkipSpace(rest);
    SkipSpaceExtends(rest, t);
    assert (u + t)[1..] == u[1..] + t;
    var w := SkipSpace(u[1..]);
    if w == "" {
      EmptyIsNoValue();
    } else {
      SkipSpaceExtends(u[1..], t);
      ScanValueExtends(w, t);
    }
  }

  lemma EmptyIsNoValue()
    ensures ScanValue("") == Malformed
  {
  }

  lemma {:induction false} ScanFieldsExtends(s: string, t: string)
    requires ScanFields(s).Scanned?
    ensures ScanFields(s + t) == Scanned(ScanFields(s).value, ScanFields(s).rest + t)
    decreases |s|, 2
  {
    hide ScanField;
    var rest := ScanField(s).rest;
    var u := SkipSpace(rest);
    ScanFieldExtends(s, t);
    SkipSpaceExtends(rest, t);
    assert (u + t)[1..] == u[1..] + t;
    if u[0] == ',' {
      var w := SkipSpace(u[1..]);
      if w == "" {
        NothingToScan();
      } else {
        SkipSpaceExtends(u[1..], t);
        ScanFieldsExtends(w, t);
      }
    }
  }

  // ---------------------------------------------------------------------------------------------
  // Transcripts
  // ---------------------------------------------------------------------------------------------

  /** The bytes are accepted as one JSON object, canonical or not. */
  predicate IsObjectText(data: Bytes) {
    Deserialize(data).Ok? && Deserialize(data).value.Obj?
  }

  predicate AllDecode(transcript: seq<Bytes>) {
    forall i | 0 <= i < |transcript| :: Deserialize(transcript[i]).Ok?
  }

  function Texts(transcript: seq<Bytes>): string
    requires AllDecode(transcript)
  {
    if transcript == [] then ""
    else
      assert Deserialize(transcript[0]).Ok?;
      Utf8.Decode(transcript[0]).value + Texts(transcript[1..])
  }

  lemma {:induction false} TextsOfConcat(transcript: seq<Bytes>)
    requires AllDecode(transcript)
    ensures Utf8.Decode(Concat(transcript)) == Ok(Texts(transcript))
  {
    hide Parse;
    if transcript == [] {
    } else {
      TextsOfConcat(transcript[1..]);
      Utf8.DecodeOfConcat(transcript[0], Concat(transcript[1..]));
    }
  }

  /** An object text, and whatever follows it, scans to the object and to what follows it. */
  lemma ObjectTextExtends(data: Bytes, more: string)
    requires IsObjectText(data)
    ensures var s := SkipSpace(Utf8.Decode(data).value + more);
            && s != ""
            && ScanValue(s).Scanned?
            && Ok(ScanValue(s).value) == Deserialize(data)
            && SkipSpace(ScanValue(s).rest) == SkipSpace(more)
  {
    hide ScanValue;
    var text := Utf8.Decode(data).value;
    var s := SkipSpace(text);
    EmptyIsNoValue();
    SkipSpaceExtends(text, more);
    ScanValueExtends(s, more);
    SkipOnlySpace(ScanValue(s).rest, more);
  }

  /** What decodes, and whatever follows it, begins with the character its value begins with. */
  lemma DecodedExtends(data: Bytes, more: string)
    requires Deserialize(data).Ok?
    ensures var s := SkipSpace(Utf8.Decode(data).value + more);
            s != "" && (s[0] == '{' ==> IsObjectText(data))
  {
    hide ScanFields;
    EmptyIsNoValue();
    SkipSpaceExtends(Utf8.Decode(data).value, more);
  }

  lemma ObjectStartsWithBrace(data: Bytes, more: string)
    requires IsObjectText(data)
    ensures var s := SkipSpace(Utf8.Decode(data).value + more); s != "" && s[0] == '{'
  {
    hide ScanFields;
    EmptyIsNoValue();
    SkipSpaceExtends(Utf8.Decode(data).value, more);
  }

  lemma {:induction false} TextsDetermineMessages(x: seq<Bytes>, y: seq<Bytes>)
    requires AllDecode(x) && AllDecode(y) && forall i | 0 <= i < |x| :: IsObjectText(x[i])
    requires SkipSpace(Texts(x)) == SkipSpace(Texts(y))
    ensures |x| == |y|
    ensures forall i | 0 <= i < |x| :: IsObjectText(y[i]) && Deserialize(x[i]) == Deserialize(y[i])
  {
    hide ScanValue, IsObjectText, Parse;
    if x != [] {
      ObjectStartsWithBrace(x[0], Texts(x[1..]));
      ObjectTextExtends(x[0], Texts(x[1..]));
    }
    if y != [] {
      DecodedExtends(y[0], Texts(y[1..]));
    }
    if x != [] && y != [] {
      ObjectTextExtends(y[0], Texts(y[1..]));
      TextsDetermineMessages(x[1..], y[1..]);
    }
  }

  /**
    The hash input of a transcript, which has no length prefixes, determines how many messages
    there are and what each of them decodes to, even for messages that are not canonical. It is
    enough that one side holds objects: then so does the other, whatever JSON it was given.
  */
  lemma TranscriptDeterminesMessages(x: seq<Bytes>, y: seq<Bytes>)
    requires AllDecode(y) && forall i | 0 <= i < |x| :: IsObjectText(x[i])
    requires Concat(x) == Concat(y)
    ensures |x| == |y|
    ensures forall i | 0 <= i < |x| :: IsObjectText(y[i]) && Deserialize(x[i]) == Deserialize(y[i])
  {
    TextsOfConcat(x);
    TextsOfConcat(y);
    TextsDetermineMessages(x, y);
  }

  /** Of two lists neither of which holds objects only this is not so: numbers run together. */
  lemma NumbersRunTogether()
    ensures var x, y := [Ascii("1"), Ascii("23")], [Ascii("12"), Ascii("3")];
            && AllDecode(x) && AllDecode(y)
            && Concat(x) == Concat(y)
            && Deserialize(x[0]) != Deserialize(y[0])
  {
    hide Utf8.Decode, Concat;
    var x: seq<Bytes> := [Ascii("1"), Ascii("23")];
    var y: seq<Bytes> := [Ascii("12"), Ascii("3")];
    Utf8.DecodeAscii("1");
    Utf8.DecodeAscii("23");
    Utf8.DecodeAscii("12");
    Utf8.DecodeAscii("3");
    SmallNumbers();
    ConcatPair(x[0], x[1]);
    ConcatPair(y[0], y[1]);
    assert x[0] + x[1] == y[0] + y[1];
  }

  lemma SmallNumbers()
    ensures Parse("1") == Ok(Int(1)) && Parse("3") == Ok(Int(3))
    ensures Parse("12") == Ok(Int(12)) && Parse("23") == Ok(Int(23))
  {
    assert "1"[1..] == "" && "3"[1..] == "";
    assert "12"[1..] == "2" && "2"[1..] == "";
    assert "23"[1..] == "3";
    assert ScanDigits("12", 0) == ScanDigits("2", 1) == ScanDigits("", 12);
    assert ScanDigits("23", 0) == ScanDigits("3", 2) == ScanDigits("", 23);
  }

  ghost predicate IsCanonical(data: Bytes) {
    exists message | IsMessage(message) && message.Obj? :: Serialize(message) == Ok(data)
  }

  lemma CanonicalDecodes(data: Bytes)
    requires IsCanonical(data)
    ensures IsObjectText(data)
    ensures IsMessage(Deserialize(data).value)
    ensures Serialize(Deserialize(data).value) == Ok(data)
  {
    var message :| IsMessage(message) && message.Obj? && Serialize(message) == Ok(data);
    RoundTrip(message);
    NormalIsNormal(message);
    NormalIdempotent(Normal(message));
    NormalIsMessage(Normal(message));
  }

  /** For canonical messages the hash input determines the very list of byte strings. */
  lemma CanonicalTranscriptDeterminesBytes(x: seq<Bytes>, y: seq<Bytes>)
    requires forall i | 0 <= i < |x| :: IsCanonical(x[i])
    requires forall i | 0 <= i < |y| :: IsCanonical(y[i])
    requires Concat(x) == Concat(y)
    ensures x == y
  {
    forall i | 0 <= i < |x| ensures IsObjectText(x[i]) { CanonicalDecodes(x[i]); }
    forall i | 0 <= i < |y| ensures IsObjectText(y[i]) { CanonicalDecodes(y[i]); }
    TranscriptDeterminesMessages(x, y);
    forall i | 0 <= i < |x| ensures x[i] == y[i] {
      CanonicalDecodes(x[i]);
      CanonicalDecodes(y[i]);
    }
  }

  /**
    Messages that are accepted without being canonical can move white space across their boundary:
    the hash input is the same, the decoded messages are the same, the byte strings are not.
  */
  lemma BoundarySpaceIsInvisible()
    ensures var x := [Ascii("{} "), Ascii("{}")];
            var y := [Ascii("{}"), Ascii(" {}")];
            && (forall i | 0 <= i < 2 :: IsObjectText(x[i]) && IsObjectText(y[i]))
            && Concat(x) == Concat(y)
            && x != y
  {
    hide Parse, Utf8.Decode, Concat;
    var x: seq<Bytes> := [Ascii("{} "), Ascii("{}")];
    var y: seq<Bytes> := [Ascii("{}"), Ascii(" {}")];
    Utf8.DecodeAscii("{} ");
    Utf8.DecodeAscii("{}");
    Utf8.DecodeAscii(" {}");
    EmptyObjectTexts();
    ConcatPair(x[0], x[1]);
    ConcatPair(y[0], y[1]);
    assert x[0] + x[1] == y[0] + y[1];
    assert |x[0]| != |y[0]|;
  }

  lemma ConcatPair(a: Bytes, b: Bytes)
    ensures Concat([a, b]) == a + b
  {
    assert [a, b][1..] == [b];
    assert Concat([b]) == b;
  }

  lemma EmptyObjectTexts()
    ensures Parse("{} ") == Ok(Obj([]))
    ensures Parse("{}") == Ok(Obj([]))
    ensures Parse(" {}") == Ok(Obj([]))
  {
    assert "{} "[1..] == "} " && "} "[1..] == " " && " "[1..] == "";
    assert "{}"[1..] == "}" && "}"[1..] == "";
    assert " {}"[1..] == "{}";
    assert SkipSpace("}") == "}";
    assert SkipSpace("} ") == "} ";
  }
}
