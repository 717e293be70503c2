/** The text of canonical messages, and the JSON scanner that reads them back. */
module JsonText {
  import opened Wrappers
  import opened CanonicalJson

  // ---------------------------------------------------------------------------------------------
  // Writer
  // ---------------------------------------------------------------------------------------------

  /** Every character is ASCII, and not DEL. */
  predicate BelowDel(s: string) {
    forall i | 0 <= i < |s| :: s[i] as int < 0x7f
  }

  function HexDigit(d: int): char
    requires 0 <= d < 16
  {
    if d < 10 then (d + '0' as int) as char else (d - 10 + 'a' as int) as char
  }

  /** `\uXXXX` for a 16-bit code unit. */
  function EscapeUnit(u: int): (s: string)
    requires 0 <= u < 0x1_0000
    ensures |s| == 6 && BelowDel(s)
  {
    ['\\', 'u', HexDigit(u / 4096), HexDigit(u / 256 % 16), HexDigit(u / 16 % 16), HexDigit(u % 16)]
  }

  /** How `json.dumps` writes one character of a string when only ASCII may be produced. */
  function EscapeChar(c: char): (s: string)
    ensures BelowDel(s)
  {
    if c == '"' then "\\\""
    else if c == '\\' then "\\\\"
    else if ' ' <= c <= '~' then [c]
    else if c == '\n' then "\\n"
    else if c == '\r' then "\\r"
    else if c == '\t' then "\\t"
    else if c as int == 8 then "\\b"
    else if c as int == 12 then "\\f"
    else if c as int < 0x1_0000 then EscapeUnit(c as int)
    else EscapeUnit(0xD800 + (c as int - 0x1_0000) / 1024) + EscapeUnit(0xDC00 + (c as int - 0x1_0000) % 1024)
  }

  function WriteChars(s: string): (t: string)
    ensures BelowDel(t)
  {
    if s == "" then "" else EscapeChar(s[0]) + WriteChars(s[1..])
  }

  function WriteString(s: string): (t: string)
    ensures BelowDel(t)
  {
    "\"" + WriteChars(s) + "\""
  }

  function WriteNat(n: nat): (t: string)
    ensures BelowDel(t)
  {
    if n < 10 then [(n + '0' as int) as char] else WriteNat(n / 10) + [(n % 10 + '0' as int) as char]
  }

  function WriteInt(i: int): (t: string)
    ensures BelowDel(t)
  {
    if i < 0 then "-" + WriteNat(-i) else WriteNat(i)
  }

  /** The compact text of a value in normal form. */
  function Write(v: Value): (t: string)
    requires IsNormal(v)
    ensures BelowDel(t)
    decreases v, 0
  {
    match v
    case Null => "null"
    case Bool(b) => if b then "true" else "false"
    case Int(i) => WriteInt(i)
    case Str(s) => WriteString(s)
    case Arr(items) => if items == [] then "[]" else "[" + WriteItems(items) + "]"
    case Obj(fields) => if fields == [] then "{}" else "{" + WriteFields(fields) + "}"
  }

  function WriteItems(items: seq<Value>): (t: string)
    requires items != [] && forall i | 0 <= i < |items| :: IsNormal(items[i])
    ensures BelowDel(t)
    decreases items, 1
  {
    if |items| == 1 then Write(items[0]) else Write(items[0]) + "," + WriteItems(items[1..])
  }

  function WriteField(f: Field): (t: string)
    requires IsNormal(f.val)
    ensures BelowDel(t)
    decreases f, 1
  {
    WriteString(f.key) + ":" + Write(f.val)
  }

  function WriteFields(fields: seq<Field>): (t: string)
    requires fields != [] && forall i | 0 <= i < |fields| :: IsNormal(fields[i].val)
    ensures BelowDel(t)
    decreases fields, 2
  {
    if |fields| == 1 then WriteField(fields[0]) else WriteField(fields[0]) + "," + WriteFields(fields[1..])
  }

  // ---------------------------------------------------------------------------------------------
  // Scanner
  // ---------------------------------------------------------------------------------------------

  datatype Scan<+T> = Scanned(value: T, rest: string) | Malformed

  predicate IsSpace(c: char) { c == ' ' || c == '\t' || c == '\n' || c == '\r' }

  function SkipSpace(s: string): (t: string)
    ensures |t| <= |s|
  {
    if s != "" && IsSpace(s[0]) then SkipSpace(s[1..]) else s
  }

  function HexValue(c: char): int {
    if '0' <= c <= '9' then c as int - '0' as int
    else if 'a' <= c <= 'f' then c as int - 'a' as int + 10
    else if 'A' <= c <= 'F' then c as int - 'A' as int + 10
    else -1
  }

  /** The code unit of a `\uXXXX` escape at the start of the text, or -1. */
  function ScanUnit(s: string): (u: int)
    ensures -1 <= u < 0x1_0000
    ensures u >= 0 ==> |s| >= 6
  {
    if |s| < 6 || s[0] != '\\' || s[1] != 'u' then -1
    else
      var a, b, c, d := HexValue(s[2]), HexValue(s[3]), HexValue(s[4]), HexValue(s[5]);
      if a < 0 || b < 0 || c < 0 || d < 0 then -1 else a * 4096 + b * 256 + c * 16 + d
  }

  /** One character of a string, escapes included; a surrogate pair gives one character. */
  function ScanChar(s: string): (r: Scan<char>)
    requires s != ""
    ensures r.Scanned? ==> |r.rest| < |s|
  {
    if (s[0] as int) < 0x20 then Malformed
    else if s[0] != '\\' then Scanned(s[0], s[1..])
    else if |s| < 2 then Malformed
    else
      match s[1]
      case '"' => Scanned('"', s[2..])
      case '\\' => Scanned('\\', s[2..])
      case '/' => Scanned('/', s[2..])
      case 'b' => Scanned(8 as char, s[2..])
      case 'f' => Scanned(12 as char, s[2..])
      case 'n' => Scanned('\n', s[2..])
      case 'r' => Scanned('\r', s[2..])
      case 't' => Scanned('\t', s[2..])
      case _ => ScanEscapedUnits(s)
  }

  function ScanEscapedUnits(s: string): (r: Scan<char>)
    ensures r.Scanned? ==> |r.rest| < |s|
  {
    var u := ScanUnit(s);
    if u < 0 then Malformed
    else if u < 0xD800 || 0xE000 <= u then Scanned(u as char, s[6..])
    else
      var l := ScanUnit(s[6..]);
      if u < 0xDC00 <= l < 0xE000
      then Scanned((0x1_0000 + (u - 0xD800) * 1024 + (l - 0xDC00)) as char, s[12..])
      else Malformed
  }

  /** The characters of a string up to the closing quote. */
  function ScanChars(s: string): (r: Scan<string>)
    ensures r.Scanned? ==> |r.rest| < |s|
    decreases |s|
  {
    if s == "" then Malformed
    else if s[0] == '"' then Scanned("", s[1..])
    else
      match ScanChar(s)
      case Malformed => Malformed
      case Scanned(c, rest) =>
        match ScanChars(rest)
        case Malformed => Malformed
        case Scanned(cs, rest') => Scanned([c] + cs, rest')
  }

  predicate StartsWithDigit(s: string) { s != "" && '0' <= s[0] <= '9' }

  function ScanDigits(s: string, acc: nat): (r: (nat, string))
    ensures |r.1| <= |s|
    ensures StartsWithDigit(s) ==> |r.1| < |s|
  {
    if StartsWithDigit(s) then ScanDigits(s[1..], acc * 10 + (s[0] as int - '0' as int)) else (acc, s)
  }

  /** An unsigned integer: a lone 0 or digits that do not start with 0. */
  function ScanNat(s: string): (r: Scan<nat>)
    ensures r.Scanned? ==> |r.rest| < |s|
  {
    if !StartsWithDigit(s) then Malformed
    else if s[0] == '0' then Scanned(0, s[1..])
    else
      var (n, rest) := ScanDigits(s, 0);
      Scanned(n, rest)
  }

  /** A fraction or an exponent follows: the number is not an integer. */
  predicate StartsWithFraction(s: string) { s != "" && (s[0] == '.' || s[0] == 'e' || s[0] == 'E') }

  function ScanNumber(s: string): (r: Scan<Value>)
    ensures r.Scanned? ==> |r.rest| < |s|
  {
    var negative := s != "" && s[0] == '-';
    match ScanNat(if negative then s[1..] else s)
    case Malformed => Malformed
    case Scanned(n, rest) =>
      if StartsWithFraction(rest) then Malformed
      else Scanned(Int(if negative then 0 - n else n), rest)
  }

  function ScanValue(s: string): (r: Scan<Value>)
    ensures r.Scanned? ==> |r.rest| < |s|
    decreases |s|, 0
  {
    if s == "" then Malformed
    else if s[0] == '"' then
      (match ScanChars(s[1..])
       case Malformed => Malformed
       case Scanned(cs, rest) => Scanned(Str(cs), rest))
    else if s[0] == '{' then
      var t := SkipSpace(s[1..]);
      if t != "" && t[0] == '}' then Scanned(Obj([]), t[1..])
      else
        (match ScanFields(t)
         case Malformed => Malformed
         case Scanned(fields, rest) => Scanned(Obj(ToDictionary(fields)), rest))
    else if s[0] == '[' then
      var t := SkipSpace(s[1..]);
      if t != "" && t[0] == ']' then Scanned(Arr([]), t[1..])
      else
        (match ScanItems(t)
         case Malformed => Malformed
         case Scanned(items, rest) => Scanned(Arr(items), rest))
    else if "null" <= s then Scanned(Null, s[4..])
    else if "true" <= s then Scanned(Bool(true), s[4..])
    else if "false" <= s then Scanned(Bool(false), s[5..])
    else ScanNumber(s)
  }

  function ScanItems(s: string): (r: Scan<seq<Value>>)
    ensures r.Scanned? ==> |r.rest| < |s|
    decreases |s|, 1
  {
    match ScanValue(s)
    case Malformed => Malformed
    case Scanned(v, rest) =>
      var t := SkipSpace(rest);
      if t != "" && t[0] == ']' then Scanned([v], t[1..])
      else if t != "" && t[0] == ',' then
        (match ScanItems(SkipSpace(t[1..]))
         case Malformed => Malformed
         case Scanned(vs, rest') => Scanned([v] + vs, rest'))
      else Malformed
  }

  function ScanField(s: string): (r: Scan<Field>)
    ensures r.Scanned? ==> |r.rest| < |s|
    decreases |s|, 1
  {
    if s == "" || s[0] != '"' then Malformed
    else
      match ScanChars(s[1..])
      case Malformed => Malformed
      case Scanned(key, rest) =>
        var t := SkipSpace(rest);
        if t == "" || t[0] != ':' then Malformed
        else
          match ScanValue(SkipSpace(t[1..]))
          case Malformed => Malformed
          case Scanned(v, rest') => Scanned(Field(key, v), rest')
  }

  function ScanFields(s: string): (r: Scan<seq<Field>>)
    ensures r.Scanned? ==> |r.rest| < |s|
    decreases |s|, 2
  {
    match ScanField(s)
    case Malformed => Malformed
    case Scanned(f, rest) =>
      var t := SkipSpace(rest);
      if t != "" && t[0] == '}' then Scanned([f], t[1..])
      else if t != "" && t[0] == ',' then
        (match ScanFields(SkipSpace(t[1..]))
         case Malformed => Malformed
         case Scanned(fs, rest') => Scanned([f] + fs, rest'))
      else Malformed
  }

  /** `d[key] = val`: an existing key keeps its place. */
  function Assign(fields: seq<Field>, f: Field): seq<Field> {
    if fields == [] then [f]
    else if fields[0].key == f.key then [f] + fields[1..]
    else [fields[0]] + Assign(fields[1..], f)
  }

  /** The dictionary of a list of pairs: the last value of a repeated key wins. */
  function ToDictionary(fields: seq<Field>): seq<Field> {
    if fields == [] then []
    else Assign(ToDictionary(fields[..|fields| - 1]), fields[|fields| - 1])
  }

  /** `json.loads`: one value, with white space around it. */
  function Parse(s: string): Result<Value> {
    match ScanValue(SkipSpace(s))
    case Malformed => Raise(ValueError)
    case Scanned(v, rest) => if SkipSpace(rest) == "" then Ok(v) else Raise(ValueError)
  }

  // ---------------------------------------------------------------------------------------------
  // The scanner reads back what the writer wrote, whatever follows
  // ---------------------------------------------------------------------------------------------

  lemma HexOfDigit(d: int)
    requires 0 <= d < 16
    ensures HexValue(HexDigit(d)) == d
  {
  }

  lemma HexParts(u: int)
    requires 0 <= u < 0x1_0000
    ensures 0 <= u / 4096 < 16
    ensures u == u / 4096 * 4096 + u / 256 % 16 * 256 + u / 16 % 16 * 16 + u % 16
  {
  }

  lemma ScanEscapeUnit(u: int, rest: string)
    requires 0 <= u < 0x1_0000
    ensures ScanUnit(EscapeUnit(u) + rest) == u
    ensures (EscapeUnit(u) + rest)[6..] == rest
    ensures (EscapeUnit(u) + rest)[0] == '\\' && (EscapeUnit(u) + rest)[1] == 'u'
  {
    HexParts(u);
    HexOfDigit(u / 4096);
    HexOfDigit(u / 256 % 16);
    HexOfDigit(u / 16 % 16);
    HexOfDigit(u % 16);
    hide HexDigit, HexValue;
    var s := EscapeUnit(u) + rest;
    assert s[2] == HexDigit(u / 4096);
    assert s[3] == HexDigit(u / 256 % 16);
    assert s[4] == HexDigit(u / 16 % 16);
    assert s[5] == HexDigit(u % 16);
  }

  lemma ScanEscapeChar(c: char, rest: string)
    ensures EscapeChar(c) != ""
    ensures (EscapeChar(c) + rest)[0] != '"'
    ensures ScanChar(EscapeChar(c) + rest) == Scanned(c, rest)
  {
    hide EscapeUnit, ScanUnit;
    var s := EscapeChar(c) + rest;
    if c == '"' || c == '\\' || c == '\n' || c == '\r' || c == '\t' || c as int == 8 || c as int == 12 {
      assert |EscapeChar(c)| == 2;
      assert s[2..] == rest;
    } else if ' ' <= c <= '~' {
      assert s[1..] == rest;
    } else if c as int < 0x1_0000 {
      ScanEscapeUnit(c as int, rest);
    } else {
      var hi, lo := 0xD800 + (c as int - 0x1_0000) / 1024, 0xDC00 + (c as int - 0x1_0000) % 1024;
      assert s == EscapeUnit(hi) + (EscapeUnit(lo) + rest);
      ScanEscapeUnit(hi, EscapeUnit(lo) + rest);
      ScanEscapeUnit(lo, rest);
      assert s[12..] == s[6..][6..];
    }
  }

  lemma {:induction false} ScanWrittenChars(cs: string, rest: string)
    ensures ScanChars(WriteChars(cs) + "\"" + rest) == Scanned(cs, rest)
  {
    hide EscapeChar, ScanChar;
    var s := WriteChars(cs) + "\"" + rest;
    if cs == "" {
      assert s == "\"" + rest;
    } else {
      var rest' := WriteChars(cs[1..]) + "\"" + rest;
      assert s == EscapeChar(cs[0]) + rest';
      ScanEscapeChar(cs[0], rest');
      ScanWrittenChars(cs[1..], rest);
      assert cs == [cs[0]] + cs[1..];
    }
  }

  lemma {:induction false} WrittenNatStarts(n: nat)
    ensures StartsWithDigit(WriteNat(n))
    ensures WriteNat(n)[0] == '0' <==> n == 0
  {
    if n >= 10 {
      WrittenNatStarts(n / 10);
    }
  }

  lemma {:induction false} ScanWrittenDigits(n: nat, rest: string)
    requires !StartsWithDigit(rest)
    ensures ScanDigits(WriteNat(n) + rest, 0) == (n, rest)
  {
    ScanDigitsSplit(n, 0, rest);
    assert ScanDigits(rest, n) == (n, rest);
  }

  /** Reading the digits of n in front of a text leaves the text to be read with n accumulated. */
  lemma {:induction false} ScanDigitsSplit(n: nat, acc: nat, rest: string)
    ensures acc == 0 ==> ScanDigits(WriteNat(n) + rest, 0) == ScanDigits(rest, n)
  {
    if n >= 10 {
      var d := [(n % 10 + '0' as int) as char];
      assert WriteNat(n) + rest == WriteNat(n / 10) + (d + rest);
      ScanDigitsSplit(n / 10, acc, d + rest);
      assert (d + rest)[1..] == rest;
    } else {
      assert (WriteNat(n) + rest)[1..] == rest;
    }
  }

  lemma WrittenZero()
    ensures WriteNat(0) == "0"
  {
  }

  /** What may follow an integer without changing it. */
  predicate EndsNumber(rest: string) { !StartsWithDigit(rest) && !StartsWithFraction(rest) }

  lemma ScanWrittenInt(i: int, rest: string)
    requires EndsNumber(rest)
    ensures ScanNumber(WriteInt(i) + rest) == Scanned(Int(i), rest)
    ensures WriteInt(i) != "" && (WriteInt(i)[0] == '-' || StartsWithDigit(WriteInt(i)))
  {
    hide ScanDigits, WriteNat;
    var n := if i < 0 then -i else i;
    WrittenNatStarts(n);
    ScanWrittenDigits(n, rest);
    var t := WriteNat(n) + rest;
    if i < 0 {
      assert (WriteInt(i) + rest)[1..] == t;
    }
    if n == 0 {
      WrittenZero();
      assert t[1..] == rest;
    }
    assert ScanNat(t) == Scanned(n, rest);
  }

  lemma {:induction false} AssignNew(fields: seq<Field>, f: Field)
    requires forall g | g in fields :: g.key != f.key
    ensures Assign(fields, f) == fields + [f]
  {
    if fields != [] {
      AssignNew(fields[1..], f);
      assert fields == [fields[0]] + fields[1..];
    }
  }

  lemma {:induction false} ToDictionaryOfDistinct(fields: seq<Field>)
    requires Distinct(fields)
    ensures ToDictionary(fields) == fields
  {
    if fields != [] {
      var init, last := fields[..|fields| - 1], fields[|fields| - 1];
      ToDictionaryOfDistinct(init);
      AssignNew(init, last);
      assert fields == init + [last];
    }
  }

  /** The text of a value starts with a character that is neither white space nor a bracket's end. */
  lemma WrittenStarts(v: Value)
    requires IsNormal(v)
    ensures Write(v) != "" && !IsSpace(Write(v)[0]) && Write(v)[0] != ']' && Write(v)[0] != '}'
  {
    if v.Int? {
      ScanWrittenInt(v.i, "");
    }
  }

  lemma ScanWrittenSimple(v: Value, rest: string)
    requires IsNormal(v) && !v.Arr? && !v.Obj?
    requires v.Int? ==> EndsNumber(rest)
    ensures ScanValue(Write(v) + rest) == Scanned(v, rest)
  {
    hide ScanChars, WriteChars, ScanNumber, WriteInt, ScanItems, ScanFields;
    var s := Write(v) + rest;
    match v
    case Null => assert s[4..] == rest;
    case Bool(b) => assert s[if b then 4 else 5..] == rest;
    case Int(i) => ScanWrittenInt(i, rest);
    case Str(cs) =>
      ScanWrittenChars(cs, rest);
      assert s[1..] == WriteChars(cs) + "\"" + rest;
  }

  /** The scanner reads back any value in normal form, and stops where its text ends. */
  lemma {:induction false} ScanWritten(v: Value, rest: string)
    requires IsNormal(v)
    requires v.Int? ==> EndsNumber(rest)
    ensures ScanValue(Write(v) + rest) == Scanned(v, rest)
    decreases v, 1
  {
    hide ScanItems, ScanFields, WriteItems, WriteFields, ToDictionary, ScanNumber;
    match v
    case Arr(items) =>
      var s := Write(v) + rest;
      if items == [] {
        assert s[1..] == "]" + rest;
        assert SkipSpace(s[1..])[1..] == rest;
      } else {
        ScanWrittenItems(items, rest);
        assert s[1..] == WriteItems(items) + "]" + rest;
      }
    case Obj(fields) =>
      var s := Write(v) + rest;
      if fields == [] {
        assert s[1..] == "}" + rest;
        assert SkipSpace(s[1..])[1..] == rest;
      } else {
        ScanWrittenFields(fields, rest);
        assert s[1..] == WriteFields(fields) + "}" + rest;
        SortedDistinct(fields);
        ToDictionaryOfDistinct(fields);
      }
    case _ => ScanWrittenSimple(v, rest);
  }

  lemma {:induction false} ScanWrittenItems(items: seq<Value>, rest: string)
    requires items != [] && forall i | 0 <= i < |items| :: IsNormal(items[i])
    ensures ScanItems(WriteItems(items) + "]" + rest) == Scanned(items, rest)
    ensures SkipSpace(WriteItems(items) + "]" + rest) == WriteItems(items) + "]" + rest
    ensures WriteItems(items) != "" && WriteItems(items)[0] != ']'
    decreases items, 2
  {
    hide ScanValue, Write, IsNormal;
    WrittenStarts(items[0]);
    var s := WriteItems(items) + "]" + rest;
    if |items| == 1 {
      assert s == Write(items[0]) + ("]" + rest);
      ScanWritten(items[0], "]" + rest);
      assert items == [items[0]];
    } else {
      var more := WriteItems(items[1..]) + "]" + rest;
      assert s == Write(items[0]) + ("," + more);
      ScanWritten(items[0], "," + more);
      ScanWrittenItems(items[1..], rest);
      assert ("," + more)[1..] == more;
      assert items == [items[0]] + items[1..];
    }
  }

  lemma {:induction false} ScanWrittenField(f: Field, rest: string)
    requires IsNormal(f.val)
    requires EndsNumber(rest)
    ensures ScanField(WriteField(f) + rest) == Scanned(f, rest)
    decreases f, 2
  {
    hide ScanValue, Write, ScanChars, WriteChars;
    WrittenStarts(f.val);
    var s := WriteField(f) + rest;
    var afterKey := ":" + Write(f.val) + rest;
    assert s[1..] == WriteChars(f.key) + "\"" + afterKey;
    ScanWrittenChars(f.key, afterKey);
    assert afterKey[1..] == Write(f.val) + rest;
    ScanWritten(f.val, rest);
  }

  lemma WrittenFieldStarts(f: Field)
    requires IsNormal(f.val)
    ensures WriteField(f) != "" && WriteField(f)[0] == '"'
  {
  }

  lemma {:induction false} ScanWrittenFields(fields: seq<Field>, rest: string)
    requires fields != [] && forall i | 0 <= i < |fields| :: IsNormal(fields[i].val)
    ensures ScanFields(WriteFields(fields) + "}" + rest) == Scanned(fields, rest)
    ensures SkipSpace(WriteFields(fields) + "}" + rest) == WriteFields(fields) + "}" + rest
    ensures WriteFields(fields) != "" && WriteFields(fields)[0] == '"'
    decreases fields, 3
  {
    hide ScanField, ScanValue, Write, IsNormal, WriteField;
    WrittenFieldStarts(fields[0]);
    var s := WriteFields(fields) + "}" + rest;
    if |fields| == 1 {
      assert s == WriteField(fields[0]) + ("}" + rest);
      ScanWrittenField(fields[0], "}" + rest);
      assert fields == [fields[0]];
    } else {
      var more := WriteFields(fields[1..]) + "}" + rest;
      assert s == WriteField(fields[0]) + ("," + more);
      ScanWrittenField(fields[0], "," + more);
      ScanWrittenFields(fields[1..], rest);
      assert ("," + more)[1..] == more;
      assert fields == [fields[0]] + fields[1..];
    }
  }
}
