/** A built request is parsed back: method, path, version, headers and the exact body. */
module HttpRoundTrip {
  import opened Wrappers
  import opened ByteStrings
  import opened Splitting
  import opened Http
  import opened HttpBuild
  import JsonText

  // ---------------------------------------------------------------------------------------------
  // Lines with their line ends
  // ---------------------------------------------------------------------------------------------

  predicate NoCrlf(s: Bytes) {
    FindCrlf(s) == |s|
  }

  function JoinLines(lines: seq<Bytes>): Bytes {
    if lines == [] then [] else lines[0] + CRLF + JoinLines(lines[1..])
  }

  /** The first line ends at the first line end that follows it. */
  lemma {:induction false} FindAfterLine(line: Bytes, rest: Bytes)
    requires NoCrlf(line)
    ensures FindCrlf(line + CRLF + rest) == |line|
  {
    var s := line + CRLF + rest;
    if line != [] {
      FindAfterLine(line[1..], rest);
      assert s[1..] == line[1..] + CRLF + rest;
      assert |line| >= 2 ==> s[1] == line[1];
    }
  }

  lemma SplitAfterLine(line: Bytes, rest: Bytes)
    requires NoCrlf(line)
    ensures SplitCrlf(line + CRLF + rest) == [line] + SplitCrlf(rest)
  {
    FindAfterLine(line, rest);
    hide FindCrlf;
    var s := line + CRLF + rest;
    assert s[..|line|] == line && s[|line| + 2..] == rest;
  }

  /** The lines of a request: those of its head, the blank one, and what the body splits into. */
  lemma {:induction false} SplitJoined(lines: seq<Bytes>, body: Bytes)
    requires forall i | 0 <= i < |lines| :: NoCrlf(lines[i])
    ensures SplitCrlf(JoinLines(lines) + CRLF + body) == lines + [[]] + SplitCrlf(body)
  {
    hide NoCrlf, SplitCrlf;
    if lines == [] {
      NothingHasNoCrlf();
      SplitAfterLine([], body);
      assert JoinLines(lines) + CRLF + body == [] + CRLF + body;
    } else {
      SplitJoined(lines[1..], body);
      var rest := JoinLines(lines[1..]) + CRLF + body;
      SplitAfterLine(lines[0], rest);
      assert JoinLines(lines) + CRLF + body == lines[0] + CRLF + rest;
    }
  }

  lemma NothingHasNoCrlf()
    ensures NoCrlf([])
  {
  }

  lemma BlankAtStart(rest: Bytes)
    ensures FindBlank(CRLF + rest) == if StartsWithCrlf(rest) then 0 else 2 + FindBlank(rest)
  {
    var s := CRLF + rest;
    assert s[2..] == rest;
    assert s[1..] == [LF] + rest && s[1..][1..] == rest;
    assert !StartsWithCrlf([LF] + rest);
  }

  lemma LineDoesNotStart(line: Bytes, rest: Bytes)
    requires NoCrlf(line) && line != []
    ensures !StartsWithCrlf(line + CRLF + rest)
  {
    var s := line + CRLF + rest;
    assert |line| >= 2 ==> s[1] == line[1];
  }

  lemma NoCrlfTail(line: Bytes)
    requires NoCrlf(line) && line != []
    ensures NoCrlf(line[1..])
  {
  }

  lemma {:induction false} BlankAfterLine(line: Bytes, rest: Bytes)
    requires NoCrlf(line)
    ensures FindBlank(line + CRLF + rest) == if StartsWithCrlf(rest) then |line| else |line| + 2 + FindBlank(rest)
  {
    hide StartsWithCrlf, NoCrlf;
    var s := line + CRLF + rest;
    if line == [] {
      BlankAtStart(rest);
      assert s == CRLF + rest;
    } else {
      NoCrlfTail(line);
      BlankAfterLine(line[1..], rest);
      LineDoesNotStart(line, rest);
      assert s[1..] == line[1..] + CRLF + rest;
    }
  }

  lemma JoinedCons(lines: seq<Bytes>, body: Bytes)
    requires lines != []
    ensures JoinLines(lines) + CRLF + body == lines[0] + CRLF + (JoinLines(lines[1..]) + CRLF + body)
    ensures |JoinLines(lines)| == |lines[0]| + 2 + |JoinLines(lines[1..])|
  {
  }

  /** The blank line is the one after the head, wherever line ends occur in the body. */
  lemma {:induction false} BlankOfJoined(lines: seq<Bytes>, body: Bytes)
    requires lines != [] && forall i | 0 <= i < |lines| :: NoCrlf(lines[i]) && lines[i] != []
    ensures FindBlank(JoinLines(lines) + CRLF + body) == |JoinLines(lines)| - 2
  {
    hide NoCrlf, FindBlank, StartsWithCrlf, JoinLines;
    var rest := JoinLines(lines[1..]) + CRLF + body;
    JoinedCons(lines, body);
    BlankAfterLine(lines[0], rest);
    if |lines| == 1 {
      LastIsBlank(lines, body);
    } else {
      BlankOfJoined(lines[1..], body);
      JoinedCons(lines[1..], body);
      LineDoesNotStart(lines[1], JoinLines(lines[1..][1..]) + CRLF + body);
    }
  }

  lemma LastIsBlank(lines: seq<Bytes>, body: Bytes)
    requires |lines| == 1
    ensures StartsWithCrlf(JoinLines(lines[1..]) + CRLF + body) && |JoinLines(lines[1..])| == 0
  {
    assert lines[1..] == [];
  }

  lemma BodyOfJoined(lines: seq<Bytes>, body: Bytes)
    requires lines != [] && forall i | 0 <= i < |lines| :: NoCrlf(lines[i]) && lines[i] != []
    ensures BodyOf(JoinLines(lines) + CRLF + body) == body
  {
    hide NoCrlf, FindBlank;
    BlankOfJoined(lines, body);
    var raw := JoinLines(lines) + CRLF + body;
    assert |JoinLines(lines)| >= 2 by { assert JoinLines(lines) == lines[0] + CRLF + JoinLines(lines[1..]); }
    assert raw[|JoinLines(lines)| + 2..] == body;
  }

  // ---------------------------------------------------------------------------------------------
  // Text and bytes
  // ---------------------------------------------------------------------------------------------

  predicate AllText(lines: seq<string>) {
    forall i | 0 <= i < |lines| :: IsAscii(lines[i])
  }

  function Encoded(lines: seq<string>): (r: seq<Bytes>)
    requires AllText(lines)
    ensures |r| == |lines|
    ensures forall i | 0 <= i < |lines| :: r[i] == Ascii(lines[i])
  {
    seq(|lines|, i requires 0 <= i < |lines| => Ascii(lines[i]))
  }

  lemma {:induction false} JoinedText(lines: seq<string>)
    requires AllText(lines)
    ensures IsAscii(JoinText(lines)) && Ascii(JoinText(lines)) == JoinLines(Encoded(lines))
  {
    hide Ascii;
    CrlfText();
    if lines != [] {
      JoinedText(lines[1..]);
      AsciiConcat(lines[0], "\r\n");
      AsciiConcat(lines[0] + "\r\n", JoinText(lines[1..]));
      assert Encoded(lines)[1..] == Encoded(lines[1..]);
    } else {
      EmptyText();
    }
  }

  lemma CrlfText()
    ensures IsAscii("\r\n") && Ascii("\r\n") == CRLF
  {
  }

  lemma EmptyText()
    ensures Ascii("") == []
  {
  }

  // ---------------------------------------------------------------------------------------------
  // Headers
  // ---------------------------------------------------------------------------------------------

  /** ASCII without CRLF, and with no white space at either end. */
  predicate CleanText(s: string) {
    IsAscii(s) && NoCrlf(Ascii(s)) && Strip(Ascii(s)) == Ascii(s)
  }

  predicate CleanHeader(h: Header) {
    CleanText(h.key) && CleanText(h.value) && ':' !in h.key
  }

  /** A method or a path: ASCII without CRLF and without a space. */
  predicate CleanWord(s: string) {
    IsAscii(s) && NoCrlf(Ascii(s)) && ' ' !in s
  }

  /** Joining across a character that is neither CR nor LF makes no CRLF. */
  lemma {:induction false} NoCrlfAcross(a: Bytes, x: byte, b: Bytes)
    requires NoCrlf(a) && NoCrlf(b) && x != CR && x != LF
    ensures NoCrlf(a + [x] + b)
  {
    var s := a + [x] + b;
    if a == [] {
      assert s[1..] == b;
    } else {
      NoCrlfTail(a);
      NoCrlfAcross(a[1..], x, b);
      assert s[1..] == a[1..] + [x] + b;
      assert |a| >= 2 ==> s[1] == a[1];
    }
  }

  lemma {:induction false} ColonAt(key: Bytes, rest: Bytes)
    requires COLON !in key
    ensures FindColon(key + [COLON] + rest) == |key|
  {
    if key != [] {
      ColonAt(key[1..], rest);
      assert (key + [COLON] + rest)[1..] == key[1..] + [COLON] + rest;
    }
  }

  lemma StripLeadingSpace(s: Bytes)
    ensures Strip([SPACE] + s) == Strip(s)
  {
    assert ([SPACE] + s)[1..] == s;
  }

  lemma HeaderLineBytes(h: Header)
    requires IsAscii(h.key) && IsAscii(h.value)
    ensures IsAscii(HeaderLine(h)) && Ascii(HeaderLine(h)) == Ascii(h.key) + [COLON] + ([SPACE] + Ascii(h.value))
  {
    assert HeaderLine(h) == h.key + ": " + h.value;
  }

  lemma NoColon(key: string)
    requires IsAscii(key) && ':' !in key
    ensures COLON !in Ascii(key)
  {
  }

  /** The line of a clean header sets that header. */
  lemma HeaderLineReads(h: Header, headers: map<string, string>)
    requires CleanHeader(h)
    ensures IsAscii(HeaderLine(h))
    ensures var line := Ascii(HeaderLine(h));
            NoCrlf(line) && line != [] && AddHeader(line, headers) == Ok(headers[Lower(h.key) := h.value])
  {
    hide Ascii, FromAscii, FindColon, Strip, NoCrlf, HeaderLine, Lower;
    HeaderLineBytes(h);
    var key, value := Ascii(h.key), Ascii(h.value);
    var line := Ascii(HeaderLine(h));
    NoCrlfAcross([], SPACE, value) by { NothingHasNoCrlf(); }
    assert [] + [SPACE] + value == [SPACE] + value;
    NoCrlfAcross(key, COLON, [SPACE] + value);
    NoColon(h.key);
    ColonAt(key, [SPACE] + value);
    assert line[..|key|] == key && line[|key| + 1..] == [SPACE] + value;
    StripLeadingSpace(value);
    AsciiRoundTrip(h.key);
    AsciiRoundTrip(h.value);
  }

  /** The header map: keys in lower case, a later header replacing an earlier one. */
  function HeaderMap(hs: seq<Header>, headers: map<string, string>): map<string, string> {
    if hs == [] then headers else HeaderMap(hs[1..], headers[Lower(hs[0].key) := hs[0].value])
  }

  lemma {:induction false} HeaderLinesText(hs: seq<Header>)
    requires forall i | 0 <= i < |hs| :: CleanHeader(hs[i])
    ensures AllText(HeaderLines(hs)) && |HeaderLines(hs)| == |hs|
    ensures forall i | 0 <= i < |hs| :: HeaderLines(hs)[i] == HeaderLine(hs[i])
    ensures forall i | 0 <= i < |hs| :: NoCrlf(Ascii(HeaderLines(hs)[i])) && Ascii(HeaderLines(hs)[i]) != []
  {
    hide CleanHeader, IsAscii, NoCrlf, HeaderLine, Ascii;
    if hs != [] {
      HeaderLineReads(hs[0], map[]);
      HeaderLinesText(hs[1..]);
    }
  }

  lemma {:induction false} HeadersOfLines(hs: seq<Header>, headers: map<string, string>, rest: seq<Bytes>)
    requires forall i | 0 <= i < |hs| :: CleanHeader(hs[i])
    requires AllText(HeaderLines(hs))
    ensures Headers(Encoded(HeaderLines(hs)) + [[]] + rest, headers) == Ok(HeaderMap(hs, headers))
  {
    hide CleanHeader, IsAscii, NoCrlf, HeaderLine, Ascii, AddHeader, Lower;
    var lines := Encoded(HeaderLines(hs)) + [[]] + rest;
    HeaderLinesText(hs);
    if hs != [] {
      HeaderLineReads(hs[0], headers);
      HeaderLinesText(hs[1..]);
      assert HeaderLines(hs)[1..] == HeaderLines(hs[1..]);
      assert lines[1..] == Encoded(HeaderLines(hs[1..])) + [[]] + rest;
      HeadersOfLines(hs[1..], headers[Lower(hs[0].key) := hs[0].value], rest);
    }
  }

  // ---------------------------------------------------------------------------------------------
  // The request line
  // ---------------------------------------------------------------------------------------------

  const VERSION := "HTTP/1.1"

  predicate NoSpaces(s: string) {
    IsAscii(s) && forall i | 0 <= i < |s| :: !IsSpace(s[i] as int)
  }

  lemma {:induction false} NoCrlfWithoutSpaces(b: Bytes)
    requires forall i | 0 <= i < |b| :: !IsSpace(b[i])
    ensures NoCrlf(b) && Strip(b) == b
  {
    if b != [] {
      NoCrlfWithoutSpaces(b[1..]);
    }
  }

  /** Text without any white space is clean. */
  lemma NoSpacesIsClean(s: string)
    requires NoSpaces(s)
    ensures CleanText(s) && CleanWord(s)
  {
    NoCrlfWithoutSpaces(Ascii(s));
    hide NoCrlf, Strip;
    forall i | 0 <= i < |s| ensures s[i] != ' ' {
      assert !IsSpace(s[i] as int);
    }
  }

  lemma VersionIsClean()
    ensures NoSpaces(VERSION)
  {
  }

  lemma RequestLineBytes(verb: string, path: string)
    requires IsAscii(verb) && IsAscii(path)
    ensures IsAscii(RequestLine(verb, path))
    ensures Ascii(RequestLine(verb, path)) == Ascii(verb) + [SPACE] + (Ascii(path) + [SPACE] + Ascii(VERSION))
  {
    VersionIsClean();
    assert RequestLine(verb, path) == verb + " " + (path + " " + VERSION);
  }

  lemma NoSpaceByte(s: string)
    requires IsAscii(s) && ' ' !in s
    ensures SPACE !in Ascii(s)
  {
  }

  lemma RequestLineReads(verb: string, path: string)
    requires CleanWord(verb) && CleanWord(path)
    ensures IsAscii(RequestLine(verb, path))
    ensures var line := Ascii(RequestLine(verb, path));
            NoCrlf(line) && line != [] && Split(line, SPACE) == [Ascii(verb), Ascii(path), Ascii(VERSION)]
  {
    hide NoCrlf, Ascii, Split, RequestLine, NoSpaces, CleanText;
    VersionIsClean();
    NoSpacesIsClean(VERSION);
    RequestLineBytes(verb, path);
    var tail := Ascii(path) + [SPACE] + Ascii(VERSION);
    NoCrlfAcross(Ascii(path), SPACE, Ascii(VERSION));
    NoCrlfAcross(Ascii(verb), SPACE, tail);
    NoSpaceByte(verb);
    NoSpaceByte(path);
    NoSpaceByte(VERSION);
    SplitFirst(Ascii(verb), SPACE, tail);
    SplitFirst(Ascii(path), SPACE, Ascii(VERSION));
    SplitWhole(Ascii(VERSION), SPACE);
  }

  // ---------------------------------------------------------------------------------------------
  // The whole request
  // ---------------------------------------------------------------------------------------------

  lemma {:induction false} WrittenNatHasNoSpaces(n: nat)
    ensures NoSpaces(JsonText.WriteNat(n))
  {
    if n >= 10 {
      WrittenNatHasNoSpaces(n / 10);
    }
  }

  lemma NamesAreClean()
    ensures NoSpaces("Host") && ':' !in "Host"
    ensures NoSpaces("Content-Length") && ':' !in "Content-Length"
  {
  }

  lemma ConnectionIsClean()
    ensures NoSpaces("Connection") && ':' !in "Connection"
    ensures NoSpaces("keep-alive") && NoSpaces("close")
  {
  }

  predicate AllClean(hs: seq<Header>) {
    forall i | 0 <= i < |hs| :: CleanHeader(hs[i])
  }

  lemma {:induction false} NotHostClean(hs: seq<Header>)
    requires AllClean(hs)
    ensures AllClean(NotHost(hs))
  {
    hide CleanHeader, Lower;
    if hs != [] {
      NotHostClean(hs[1..]);
    }
  }

  lemma AllHeadersClean(host: string, headers: seq<Header>, body: Bytes, keepAlive: bool)
    requires CleanText(host) && AllClean(headers)
    ensures AllClean(AllHeaders(host, headers, body, keepAlive))
  {
    hide CleanText, NoSpaces, NotHost, HasContentLength, JsonText.WriteNat;
    NamesAreClean();
    ConnectionIsClean();
    NotHostClean(headers);
    WrittenNatHasNoSpaces(|body|);
    NoSpacesIsClean("Host");
    NoSpacesIsClean("Content-Length");
    NoSpacesIsClean("Connection");
    NoSpacesIsClean("keep-alive");
    NoSpacesIsClean("close");
    NoSpacesIsClean(JsonText.WriteNat(|body|));
  }

  /** The bytes of a request are its lines, the blank line and the body. */
  lemma RequestBytes(lines: seq<string>, body: Bytes)
    requires AllText(lines)
    ensures IsAscii(JoinText(lines) + "\r\n")
    ensures Ascii(JoinText(lines) + "\r\n") + body == JoinLines(Encoded(lines)) + CRLF + body
  {
    hide Ascii, JoinText, JoinLines;
    JoinedText(lines);
    CrlfText();
    AsciiConcat(JoinText(lines), "\r\n");
  }

  /** A request line and header lines, parsed. */
  lemma ParseOfLines(verb: string, path: string, hs: seq<Header>, body: Bytes)
    requires CleanWord(verb) && CleanWord(path) && AllClean(hs)
    ensures AllText([RequestLine(verb, path)] + HeaderLines(hs))
    ensures var lines := Encoded([RequestLine(verb, path)] + HeaderLines(hs));
            Parse(JoinLines(lines) + CRLF + body) == Ok(HttpRequest(verb, path, VERSION, HeaderMap(hs, map[]), body))
  {
    hide CleanWord, CleanHeader, IsAscii, Ascii, NoCrlf, SplitCrlf, Headers, HeaderMap, Split, JoinLines, BodyOf, RequestLine,
         HeaderLines, HeaderLine, FromAscii, IsSpace;
    RequestLineReads(verb, path);
    HeaderLinesText(hs);
    var texts := [RequestLine(verb, path)] + HeaderLines(hs);
    var lines := Encoded(texts);
    assert forall i | 0 < i < |lines| :: lines[i] == Ascii(HeaderLines(hs)[i - 1]);
    SplitJoined(lines, body);
    BodyOfJoined(lines, body);
    var rest := SplitCrlf(body);
    var all := lines + [[]] + rest;
    assert all[1..] == Encoded(HeaderLines(hs)) + [[]] + rest;
    HeadersOfLines(hs, map[], rest);
    WordsDecode(verb, path);
  }

  lemma WordsDecode(verb: string, path: string)
    requires CleanWord(verb) && CleanWord(path)
    ensures IsAscii(verb) && IsAscii(path) && IsAscii(VERSION)
    ensures FromAscii(Ascii(verb)) == Ok(verb) && FromAscii(Ascii(path)) == Ok(path) && FromAscii(Ascii(VERSION)) == Ok(VERSION)
  {
    hide FromAscii, Ascii, NoCrlf;
    VersionIsClean();
    AsciiRoundTrip(verb);
    AsciiRoundTrip(path);
    AsciiRoundTrip(VERSION);
  }

  /**
    Parsing a built request gives back the method, the path, HTTP/1.1, the headers and the exact
    body, even when the body holds blank lines.
  */
  lemma ParseOfBuild(host: string, verb: string, path: string, headers: seq<Header>, body: Bytes, keepAlive: bool)
    requires CleanText(host) && CleanWord(verb) && CleanWord(path) && AllClean(headers)
    ensures var built := BuildHttpRequest(host, verb, path, headers, body, keepAlive);
            built.Ok? &&
            Parse(built.value) ==
            Ok(HttpRequest(verb, path, VERSION, HeaderMap(AllHeaders(host, headers, body, keepAlive), map[]), body))
  {
    hide CleanWord, CleanText, CleanHeader, IsAscii, Ascii, JoinText, JoinLines, Parse, HeaderMap, RequestLine, HeaderLines, AllHeaders,
         AllClean;
    var hs := AllHeaders(host, headers, body, keepAlive);
    AllHeadersClean(host, headers, body, keepAlive);
    ParseOfLines(verb, path, hs, body);
    RequestBytes([RequestLine(verb, path)] + HeaderLines(hs), body);
  }

  // ---------------------------------------------------------------------------------------------
  // What the header map holds
  // ---------------------------------------------------------------------------------------------

  /** The value of the last header with this name in lower case. */
  function LastValue(hs: seq<Header>, name: string): Option<string> {
    if hs == [] then None
    else if Lower(hs[|hs| - 1].key) == name then Some(hs[|hs| - 1].value)
    else LastValue(hs[..|hs| - 1], name)
  }

  lemma {:induction false} HeaderMapSnoc(hs: seq<Header>, h: Header, headers: map<string, string>)
    ensures HeaderMap(hs + [h], headers) == HeaderMap(hs, headers)[Lower(h.key) := h.value]
  {
    hide Lower;
    if hs == [] {
      assert ([] + [h])[1..] == [];
    } else {
      HeaderMapSnoc(hs[1..], h, headers[Lower(hs[0].key) := hs[0].value]);
      assert (hs + [h])[1..] == hs[1..] + [h];
    }
  }

  /** The map holds the last value of every name, and nothing else. */
  lemma {:induction false} HeaderMapIs(hs: seq<Header>, name: string)
    ensures name in HeaderMap(hs, map[]) <==> LastValue(hs, name).Some?
    ensures name in HeaderMap(hs, map[]) ==> HeaderMap(hs, map[])[name] == LastValue(hs, name).value
  {
    hide Lower;
    if hs != [] {
      var init, last := hs[..|hs| - 1], hs[|hs| - 1];
      HeaderMapIs(init, name);
      HeaderMapSnoc(init, last, map[]);
      assert hs == init + [last];
    }
  }

  lemma LastValueSnoc(hs: seq<Header>, h: Header, name: string)
    ensures LastValue(hs + [h], name) == if Lower(h.key) == name then Some(h.value) else LastValue(hs, name)
  {
    hide Lower;
    assert (hs + [h])[..|hs|] == hs;
  }

  lemma {:induction false} LastValueOfKept(first: Header, hs: seq<Header>, name: string)
    requires Lower(first.key) == "host"
    ensures LastValue([first] + NotHost(hs), name) ==
            if name == "host" then Some(first.value) else LastValue(hs, name)
    decreases |hs|
  {
    hide Lower;
    if hs == [] {
      LastValueSnoc([], first, name);
      assert [] + [first] == [first] && [first] + NotHost(hs) == [first];
    } else {
      var init, last := hs[..|hs| - 1], hs[|hs| - 1];
      LastValueOfKept(first, init, name);
      NotHostSnoc(init, last);
      assert hs == init + [last];
      if Lower(last.key) == "host" {
        assert [first] + NotHost(hs) == [first] + NotHost(init);
      } else {
        assert [first] + NotHost(hs) == ([first] + NotHost(init)) + [last];
        LastValueSnoc([first] + NotHost(init), last, name);
      }
    }
  }

  lemma {:induction false} NotHostSnoc(hs: seq<Header>, h: Header)
    ensures NotHost(hs + [h]) == NotHost(hs) + (if Lower(h.key) == "host" then [] else [h])
  {
    hide Lower;
    if hs == [] {
      assert ([] + [h])[1..] == [];
    } else {
      NotHostSnoc(hs[1..], h);
      assert (hs + [h])[1..] == hs[1..] + [h];
    }
  }

  /**
    The headers of a built request: host and connection from the arguments, content-length added
    when there is a body and none was given, and otherwise the last value given for each name.
  */
  lemma BuiltHeaders(host: string, headers: seq<Header>, body: Bytes, keepAlive: bool, name: string)
    ensures LastValue(AllHeaders(host, headers, body, keepAlive), name) ==
            if name == "connection" then Some(if keepAlive then "keep-alive" else "close")
            else if name == "content-length" && body != [] && !HasContentLength(headers) then Some(JsonText.WriteNat(|body|))
            else if name == "host" then Some(host)
            else LastValue(headers, name)
  {
    hide Lower, NotHost, HasContentLength, JsonText.WriteNat, LastValue;
    LoweredNames();
    var kept := [Header("Host", host)] + NotHost(headers);
    LastValueOfKept(Header("Host", host), headers, name);
    var length := LengthHeader(headers, body);
    if length != [] {
      LastValueSnoc(kept, length[0], name);
      assert kept + length == kept + [length[0]];
    } else {
      assert kept + length == kept;
    }
    LastValueSnoc(kept + length, ConnectionHeader(keepAlive), name);
  }

  lemma LoweredNames()
    ensures Lower("Host") == "host" && Lower("Content-Length") == "content-length" && Lower("Connection") == "connection"
    ensures "host" != "connection" && "host" != "content-length" && "connection" != "content-length"
  {
    assert "host"[0] != "connection"[0];
    assert |"connection"| != |"content-length"|;
  }

  /** What the application reads under a name, for a request that was built. */
  lemma ParsedHeaders(host: string, verb: string, path: string, headers: seq<Header>, body: Bytes, keepAlive: bool, name: string)
    requires CleanText(host) && CleanWord(verb) && CleanWord(path) && AllClean(headers)
    ensures var built := BuildHttpRequest(host, verb, path, headers, body, keepAlive);
            built.Ok? && Parse(built.value).Ok? &&
            var read := Parse(built.value).value.headers;
            var expected := LastValue(AllHeaders(host, headers, body, keepAlive), name);
            (name in read <==> expected.Some?) && (name in read ==> read[name] == expected.value)
  {
    hide CleanText, CleanWord, AllClean, BuildHttpRequest, Parse, AllHeaders, HeaderMap, LastValue;
    ParseOfBuild(host, verb, path, headers, body, keepAlive);
    HeaderMapIs(AllHeaders(host, headers, body, keepAlive), name);
  }
}
