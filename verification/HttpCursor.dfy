/** The parser that walks a cursor over the request: for an ASCII head it gives what the split parser gives. */
module HttpCursor {
  import opened Wrappers
  import opened ByteStrings
  import opened Splitting
  import opened Http

  /** The request line and the header block are ASCII; the body is anything. */
  predicate AsciiHead(raw: Bytes) {
    forall i | 0 <= i < FindBlank(raw) :: raw[i] < 128
  }

  lemma {:induction false} FirstCrlf(s: Bytes, k: nat)
    requires k < |s| && StartsWithCrlf(s[k..])
    ensures FindCrlf(s) <= k
  {
    if k > 0 && !StartsWithCrlf(s) {
      assert s[1..][k - 1..] == s[k..];
      FirstCrlf(s[1..], k - 1);
    }
  }

  /** Looking only as far as the end of the first CRLF finds it too. */
  lemma {:induction false} FindCrlfWithin(s: Bytes, m: nat)
    requires FindCrlf(s) + 2 <= m <= |s|
    ensures FindCrlf(s[..m]) == FindCrlf(s)
  {
    if !StartsWithCrlf(s) {
      assert s[..m][1..] == s[1..][..m - 1];
      FindCrlfWithin(s[1..], m - 1);
    }
  }

  /** `raw_data[cursor..body_start]` up to its first CRLF. */
  function LineEnd(raw: Bytes, cursor: nat, bodyStart: nat): (e: nat)
    requires cursor <= bodyStart <= |raw|
    ensures cursor <= e <= bodyStart
  {
    cursor + FindCrlf(raw[cursor..bodyStart])
  }

  /** `body_start`: after the blank line, or the length. */
  function BodyStart(raw: Bytes): (b: nat)
    ensures b <= |raw|
  {
    if FindBlank(raw) == |raw| then |raw| else FindBlank(raw) + 4
  }

  /** The cursor stands at the start of a line, the blank one at the latest. */
  predicate AtLine(raw: Bytes, cursor: nat) {
    FindBlank(raw) == |raw| || cursor <= FindBlank(raw) || cursor == FindBlank(raw) + 2
  }

  /** The lines from the cursor on. */
  function LinesFrom(raw: Bytes, cursor: nat): seq<Bytes> {
    if cursor <= |raw| then SplitCrlf(raw[cursor..]) else []
  }

  lemma SuffixOfSuffix(s: Bytes, i: nat, j: nat)
    requires i + j <= |s|
    ensures s[i..][j..] == s[i + j..]
  {
  }

  /** The first CRLF after the cursor, seen through the slice that ends at `bodyStart`. */
  lemma LineEndInSlice(raw: Bytes, cursor: nat, bodyStart: nat)
    requires cursor <= bodyStart <= |raw|
    requires bodyStart == |raw| || cursor + FindCrlf(raw[cursor..]) + 2 <= bodyStart
    ensures LineEnd(raw, cursor, bodyStart) == cursor + FindCrlf(raw[cursor..])
  {
    hide FindCrlf;
    var rest := raw[cursor..];
    assert raw[cursor..bodyStart] == rest[..bodyStart - cursor];
    if bodyStart == |raw| {
      assert rest[..bodyStart - cursor] == rest;
    } else {
      FindCrlfWithin(rest, bodyStart - cursor);
    }
  }

  lemma CrlfAhead(raw: Bytes, cursor: nat, k: nat)
    requires cursor <= k < |raw| && StartsWithCrlf(raw[k..])
    ensures cursor + FindCrlf(raw[cursor..]) <= k
  {
    hide FindCrlf, StartsWithCrlf;
    SuffixOfSuffix(raw, cursor, k - cursor);
    FirstCrlf(raw[cursor..], k - cursor);
  }

  /** The line ends where the line of the whole rest ends. */
  lemma LineEndIs(raw: Bytes, cursor: nat)
    requires cursor < BodyStart(raw) && AtLine(raw, cursor)
    ensures LineEnd(raw, cursor, BodyStart(raw)) == cursor + FindCrlf(raw[cursor..])
    ensures FindBlank(raw) < |raw| && cursor <= FindBlank(raw) ==> cursor + FindCrlf(raw[cursor..]) <= FindBlank(raw)
    ensures FindBlank(raw) < |raw| && cursor > FindBlank(raw) ==> FindCrlf(raw[cursor..]) == 0
  {
    hide FindCrlf, StartsWithCrlf, FindBlank, LineEnd;
    var b := FindBlank(raw);
    if b < |raw| {
      CrlfAhead(raw, cursor, if cursor <= b then b else b + 2);
    }
    LineEndInSlice(raw, cursor, BodyStart(raw));
  }

  /** What comes after the end of a line that is not the last. */
  lemma LinesAfter(raw: Bytes, cursor: nat, end: nat)
    requires cursor <= |raw| && end == cursor + FindCrlf(raw[cursor..])
    ensures LinesFrom(raw, cursor) == [raw[cursor..end]] + LinesFrom(raw, end + 2)
    ensures end < |raw| ==> end + 2 <= |raw| && raw[end + 1] == LF
  {
    hide FindCrlf;
    var rest := raw[cursor..];
    var i := FindCrlf(rest);
    assert rest[..i] == raw[cursor..end];
    if i < |rest| {
      SuffixOfSuffix(raw, cursor, i);
      SuffixOfSuffix(raw, cursor, i + 2);
      assert SplitCrlf(rest) == [rest[..i]] + SplitCrlf(rest[i + 2..]);
    } else {
      assert rest[..i] == rest;
      assert LinesFrom(raw, end + 2) == [];
      assert [rest] + [] == [rest];
    }
  }

  /** The cursor moves to the next line, never past the blank one. */
  lemma NextLine(raw: Bytes, cursor: nat)
    requires cursor < BodyStart(raw) && AtLine(raw, cursor) && FindCrlf(raw[cursor..]) != 0
    ensures var end := LineEnd(raw, cursor, BodyStart(raw));
            AtLine(raw, end + 2) && end <= FindBlank(raw) && LinesFrom(raw, cursor) == [raw[cursor..end]] + LinesFrom(raw, end + 2)
  {
    hide FindCrlf, StartsWithCrlf, FindBlank, LineEnd, LinesFrom;
    LineEndIs(raw, cursor);
    var end := cursor + FindCrlf(raw[cursor..]);
    LinesAfter(raw, cursor, end);
    BlankStartsWithCr(raw);
  }

  lemma BlankStartsWithCr(raw: Bytes)
    ensures FindBlank(raw) < |raw| ==> raw[FindBlank(raw)] == CR
  {
    hide FindBlank;
  }

  // ---------------------------------------------------------------------------------------------
  // Text of ASCII bytes
  // ---------------------------------------------------------------------------------------------

  /** `str::trim` on ASCII text. */
  function Trim(s: string): string
    decreases |s|
  {
    if s != "" && IsSpaceChar(s[0]) then Trim(s[1..])
    else if s != "" && IsSpaceChar(s[|s| - 1]) then Trim(s[..|s| - 1])
    else s
  }

  predicate IsSpaceChar(ch: char) {
    ch == ' ' || '\t' <= ch <= '\r'
  }

  predicate AllAscii(b: Bytes) {
    forall i | 0 <= i < |b| :: b[i] < 128
  }

  /** Decoding and trimming is stripping and decoding. */
  lemma {:induction false} TrimOfDecoded(b: Bytes)
    requires AllAscii(b)
    ensures FromAscii(b).Ok? && FromAscii(Strip(b)) == Ok(Trim(FromAscii(b).value))
    decreases |b|
  {
    hide FromAscii, Ascii;
    DecodedSlice(b, 0, |b|);
    assert b[0..|b|] == b;
    var s := FromAscii(b).value;
    if b != [] && IsSpace(b[0]) {
      TrimOfDecoded(b[1..]);
      DecodedSlice(b, 1, |b|);
      assert b[1..|b|] == b[1..] && s[1..|b|] == s[1..];
    } else if b != [] && IsSpace(b[|b| - 1]) {
      TrimOfDecoded(b[..|b| - 1]);
      DecodedSlice(b, 0, |b| - 1);
      assert b[0..|b| - 1] == b[..|b| - 1] && s[0..|b| - 1] == s[..|b| - 1];
    }
  }

  lemma DecodedSlice(b: Bytes, i: nat, j: nat)
    requires AllAscii(b) && i <= j <= |b|
    ensures FromAscii(b).Ok? && |FromAscii(b).value| == |b| && forall k | 0 <= k < |b| :: FromAscii(b).value[k] as int == b[k]
    ensures FromAscii(b[i..j]) == Ok(FromAscii(b).value[i..j])
  {
    var s := FromAscii(b).value;
    assert forall k | 0 <= k < |b| :: Ascii(s)[k] == b[k];
    assert FromAscii(b[i..j]).value == s[i..j];
  }

  /** A header line as the cursor parser reads it; the text of ASCII bytes is the same in UTF-8. */
  function AddHeaderRust(line: Bytes, headers: map<string, string>): Result<map<string, string>> {
    var i := FindColon(line);
    if i == |line| then Ok(headers)
    else
      var key :- FromAscii(line[..i]);
      var value :- FromAscii(line[i + 1..]);
      Ok(headers[Lower(Trim(key)) := Trim(value)])
  }

  lemma SameHeader(line: Bytes, headers: map<string, string>)
    requires AllAscii(line)
    ensures AddHeaderRust(line, headers) == AddHeader(line, headers)
  {
    hide Strip, Trim, FromAscii;
    var i := FindColon(line);
    if i < |line| {
      TrimOfDecoded(line[..i]);
      TrimOfDecoded(line[i + 1..]);
    }
  }

  lemma {:induction false} SplitElements(s: Bytes, sep: byte, i: nat)
    requires AllAscii(s) && i < |Split(s, sep)|
    ensures AllAscii(Split(s, sep)[i])
  {
    if s != [] {
      var rest := Split(s[1..], sep);
      SplitElements(s[1..], sep, if i == 0 || s[0] != sep then (if i < |rest| then i else 0) else i - 1);
      if s[0] != sep && i == 0 {
        SplitElements(s[1..], sep, 0);
      }
    }
  }

  // ---------------------------------------------------------------------------------------------
  // The cursor parser
  // ---------------------------------------------------------------------------------------------

  /** The first line, its end, and where the header block starts. */
  lemma FirstLine(raw: Bytes)
    ensures var lineEnd := FindCrlf(raw);
            var start := if lineEnd + 2 <= |raw| then lineEnd + 2 else |raw|;
            SplitCrlf(raw)[0] == raw[..lineEnd] && lineEnd <= FindBlank(raw) && AtLine(raw, start) &&
            (forall headers :: Headers(SplitCrlf(raw)[1..], headers) == Headers(LinesFrom(raw, start), headers))
  {
    hide FindCrlf, FindBlank, StartsWithCrlf;
    var lineEnd, b := FindCrlf(raw), FindBlank(raw);
    if b < |raw| {
      FirstCrlf(raw, b);
      BlankStartsWithCr(raw);
    }
    assert raw[0..] == raw;
    LinesAfter(raw, 0, lineEnd);
    if lineEnd == |raw| {
      assert raw[|raw|..] == [];
      NothingLeft();
    } else {
      assert SplitCrlf(raw)[1..] == LinesFrom(raw, lineEnd + 2);
    }
  }

  lemma NothingLeft()
    ensures forall headers :: Headers(SplitCrlf([]), headers) == Ok(headers)
    ensures forall headers :: Headers([], headers) == Ok(headers)
  {
  }

  /** The lines from the cursor on, as the header loop sees them. */
  lemma HeadersStep(raw: Bytes, cursor: nat, headers: map<string, string>)
    requires cursor < BodyStart(raw) && AtLine(raw, cursor) && AsciiHead(raw)
    ensures var end := LineEnd(raw, cursor, BodyStart(raw));
            if raw[cursor..end] == [] then Headers(LinesFrom(raw, cursor), headers) == Ok(headers)
            else
              AtLine(raw, end + 2) && AllAscii(raw[cursor..end]) &&
              Headers(LinesFrom(raw, cursor), headers) ==
              var added := AddHeader(raw[cursor..end], headers);
              if added.Raise? then Raise(added.exception) else Headers(LinesFrom(raw, end + 2), added.value)
  {
    hide FindCrlf, FindBlank, StartsWithCrlf, AddHeader, LinesFrom, BodyStart, LineEnd, AtLine;
    LineEndIs(raw, cursor);
    var end := LineEnd(raw, cursor, BodyStart(raw));
    LinesAfter(raw, cursor, end);
    if raw[cursor..end] != [] {
      NextLine(raw, cursor);
      assert ([raw[cursor..end]] + LinesFrom(raw, end + 2))[1..] == LinesFrom(raw, end + 2);
    }
  }

  /** When the cursor has passed the body's start no header is left. */
  lemma LoopEnd(raw: Bytes, cursor: nat, headers: map<string, string>)
    requires cursor >= BodyStart(raw) && AtLine(raw, cursor)
    ensures Headers(LinesFrom(raw, cursor), headers) == Ok(headers)
  {
    hide FindCrlf;
    NothingLeft();
    if cursor == |raw| {
      assert raw[cursor..] == [];
    }
  }

  lemma PartsDecode(raw: Bytes, lineEnd: nat, parts: seq<Bytes>)
    requires AsciiHead(raw) && lineEnd <= FindBlank(raw) && parts == Split(raw[..lineEnd], SPACE)
    ensures forall i | 0 <= i < |parts| :: FromAscii(parts[i]).Ok?
  {
    hide FindBlank, Split;
    forall i | 0 <= i < |parts| ensures FromAscii(parts[i]).Ok? {
      SplitElements(raw[..lineEnd], SPACE, i);
    }
  }

  method ParseRust(raw: Bytes) returns (r: Result<HttpRequest>)
    requires AsciiHead(raw)
    ensures r == Parse(raw)
  {
    hide FindCrlf, SplitCrlf, FindBlank, Split, FromAscii, AddHeader, AddHeaderRust, Headers, LinesFrom, AtLine, AsciiHead, AllAscii,
         LineEnd;
    FirstLine(raw);
    HeadersRaiseValueError(SplitCrlf(raw)[1..], map[]);
    var requestLineEnd := FindCrlf(raw);
    var parts := Split(raw[..requestLineEnd], SPACE);
    if |parts| != 3 {
      return Raise(ValueError);
    }
    PartsDecode(raw, requestLineEnd, parts);
    var verb, path, version := FromAscii(parts[0]), FromAscii(parts[1]), FromAscii(parts[2]);
    var headers: map<string, string> := map[];
    var headerBlockStart := if requestLineEnd + 2 <= |raw| then requestLineEnd + 2 else |raw|;
    var bodyStart := BodyStart(raw);
    var cursor := headerBlockStart;
    while cursor < bodyStart
      invariant AtLine(raw, cursor)
      invariant Headers(SplitCrlf(raw)[1..], map[]) == Headers(LinesFrom(raw, cursor), headers)
    {
      var lineEnd := LineEnd(raw, cursor, bodyStart);
      var line := raw[cursor..lineEnd];
      HeadersStep(raw, cursor, headers);
      if line == [] {
        break;
      }
      SameHeader(line, headers);
      var added := AddHeaderRust(line, headers);
      if added.Raise? {
        return Raise(added.exception);
      }
      headers := added.value;
      cursor := lineEnd + 2;
    }
    if cursor >= bodyStart {
      LoopEnd(raw, cursor, headers);
    }
    assert raw[|raw|..] == [];
    r := Ok(HttpRequest(verb.value, path.value, version.value, headers, raw[bodyStart..]));
  }
}
