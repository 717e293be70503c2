/** HTTP/1.1 requests: the parser as a function of the request's lines. */
module Http {
  import opened Wrappers
  import opened ByteStrings
  import opened Splitting

  const CR: byte := 13
  const LF: byte := 10
  const SPACE: byte := 32
  const COLON: byte := 58

  datatype HttpRequest = HttpRequest(verb: string, path: string, version: string, headers: map<string, string>, body: Bytes)

  // ---------------------------------------------------------------------------------------------
  // Lines
  // ---------------------------------------------------------------------------------------------

  predicate StartsWithCrlf(s: Bytes) {
    |s| >= 2 && s[0] == CR && s[1] == LF
  }

  /** The position of the first CRLF, or the length. */
  function FindCrlf(s: Bytes): (i: nat)
    ensures i == |s| || i + 2 <= |s|
    ensures i < |s| ==> StartsWithCrlf(s[i..])
  {
    if s == [] || StartsWithCrlf(s) then 0
    else
      var rest := FindCrlf(s[1..]);
      assert s[1..][rest..] == s[rest + 1..];
      rest + 1
  }

  /** `s.split(b"\\r\\n")`. */
  function SplitCrlf(s: Bytes): (lines: seq<Bytes>)
    ensures |lines| >= 1
    decreases |s|
  {
    var i := FindCrlf(s);
    if i == |s| then [s] else [s[..i]] + SplitCrlf(s[i + 2..])
  }

  /** The position of the first CRLF CRLF, or the length. */
  function FindBlank(s: Bytes): (i: nat)
    ensures i == |s| || i + 4 <= |s|
    ensures i < |s| ==> StartsWithCrlf(s[i..]) && StartsWithCrlf(s[i + 2..])
  {
    if s == [] || (StartsWithCrlf(s) && StartsWithCrlf(s[2..])) then 0
    else
      var rest := FindBlank(s[1..]);
      assert s[1..][rest..] == s[rest + 1..];
      assert rest + 2 <= |s[1..]| ==> s[1..][rest + 2..] == s[rest + 3..];
      rest + 1
  }

  // ---------------------------------------------------------------------------------------------
  // Headers
  // ---------------------------------------------------------------------------------------------

  /** White space, as both languages strip it from ASCII. */
  predicate IsSpace(b: byte) {
    b == SPACE || 9 <= b <= 13
  }

  function Strip(s: Bytes): Bytes
    decreases |s|
  {
    if s != [] && IsSpace(s[0]) then Strip(s[1..])
    else if s != [] && IsSpace(s[|s| - 1]) then Strip(s[..|s| - 1])
    else s
  }

  function Lower(s: string): string {
    seq(|s|, i requires 0 <= i < |s| => if 'A' <= s[i] <= 'Z' then (s[i] as int + 32) as char else s[i])
  }

  /** The position of the first colon, or the length. */
  function FindColon(s: Bytes): (i: nat)
    ensures i <= |s| && (i < |s| ==> s[i] == COLON)
    ensures COLON !in s[..i]
    ensures i < |s| <==> COLON in s
  {
    if s == [] || s[0] == COLON then 0 else FindColon(s[1..]) + 1
  }

  /** A line with a colon sets a header, any other line nothing. */
  function AddHeader(line: Bytes, headers: map<string, string>): Result<map<string, string>> {
    var i := FindColon(line);
    if i == |line| then Ok(headers)
    else
      var key :- FromAscii(Strip(line[..i]));
      var value :- FromAscii(Strip(line[i + 1..]));
      Ok(headers[Lower(key) := value])
  }

  /** The headers of the lines up to the first empty one. */
  function Headers(lines: seq<Bytes>, headers: map<string, string>): Result<map<string, string>>
    decreases |lines|
  {
    if lines == [] || lines[0] == [] then Ok(headers)
    else
      var more :- AddHeader(lines[0], headers);
      Headers(lines[1..], more)
  }

  function BodyOf(raw: Bytes): Bytes {
    if FindBlank(raw) == |raw| then [] else raw[FindBlank(raw) + 4..]
  }

  function Parse(raw: Bytes): Result<HttpRequest> {
    var lines := SplitCrlf(raw);
    var parts := Split(lines[0], SPACE);
    if |parts| != 3 then Raise(ValueError)
    else
      var headers :- Headers(lines[1..], map[]);
      var verb :- FromAscii(parts[0]);
      var path :- FromAscii(parts[1]);
      var version :- FromAscii(parts[2]);
      Ok(HttpRequest(verb, path, version, headers, BodyOf(raw)))
  }

  /** Every way to fail is a ValueError. */
  lemma {:induction false} HeadersRaiseValueError(lines: seq<Bytes>, headers: map<string, string>)
    ensures Headers(lines, headers).Raise? ==> Headers(lines, headers).exception == ValueError
  {
    if lines != [] && lines[0] != [] && AddHeader(lines[0], headers).Ok? {
      HeadersRaiseValueError(lines[1..], AddHeader(lines[0], headers).value);
    }
  }

  // ---------------------------------------------------------------------------------------------
  // The split parser
  // ---------------------------------------------------------------------------------------------

  method ParsePython(raw: Bytes) returns (r: Result<HttpRequest>)
    ensures r == Parse(raw)
  {
    HeadersRaiseValueError(SplitCrlf(raw)[1..], map[]);
    hide SplitCrlf, FindBlank, AddHeader, Split, FromAscii;
    var lines := SplitCrlf(raw);
    var parts := Split(lines[0], SPACE);
    if |parts| < 3 {
      return Raise(ValueError);
    }
    if |parts| > 3 {
      return Raise(ValueError);
    }
    var headers: map<string, string> := map[];
    var n := 1;
    while n < |lines|
      invariant 1 <= n <= |lines|
      invariant Headers(lines[1..], map[]) == Headers(lines[n..], headers)
    {
      var line := lines[n];
      if line == [] {
        break;
      }
      assert lines[n..][0] == line && lines[n..][1..] == lines[n + 1..];
      var added := AddHeader(line, headers);
      if added.Raise? {
        return Raise(added.exception);
      }
      headers := added.value;
      n := n + 1;
    }
    var bodyStart := FindBlank(raw);
    var body := if bodyStart != |raw| then raw[bodyStart + 4..] else [];
    var verb, path, version := FromAscii(parts[0]), FromAscii(parts[1]), FromAscii(parts[2]);
    if verb.Raise? || path.Raise? || version.Raise? {
      return Raise(ValueError);
    }
    r := Ok(HttpRequest(verb.value, path.value, version.value, headers, body));
  }
}
