/** Building a request, and reading it back with the parser. */
module HttpBuild {
  import opened Wrappers
  import opened ByteStrings
  import opened Http
  import JsonText

  datatype Header = Header(key: string, value: string)

  const CRLF: Bytes := [13, 10]

  function NotHost(headers: seq<Header>): seq<Header> {
    if headers == [] then []
    else (if Lower(headers[0].key) == "host" then [] else [headers[0]]) + NotHost(headers[1..])
  }

  predicate HasContentLength(headers: seq<Header>) {
    exists i | 0 <= i < |headers| :: Lower(headers[i].key) == "content-length"
  }

  /** The headers of the request: Host first, Content-Length when a body needs one, Connection last. */
  function AllHeaders(host: string, headers: seq<Header>, body: Bytes, keepAlive: bool): seq<Header> {
    [Header("Host", host)] + NotHost(headers) + LengthHeader(headers, body) + [ConnectionHeader(keepAlive)]
  }

  function HeaderLine(h: Header): string {
    h.key + ": " + h.value
  }

  function HeaderLines(headers: seq<Header>): seq<string> {
    if headers == [] then [] else [HeaderLine(headers[0])] + HeaderLines(headers[1..])
  }

  function RequestLine(verb: string, path: string): string {
    verb + " " + path + " HTTP/1.1"
  }

  /** Every line with its line end. */
  function JoinText(lines: seq<string>): string {
    if lines == [] then "" else lines[0] + "\r\n" + JoinText(lines[1..])
  }

  function BuildHttpRequest(host: string, verb: string, path: string, headers: seq<Header>, body: Bytes, keepAlive: bool): Result<Bytes> {
    var text := JoinText([RequestLine(verb, path)] + HeaderLines(AllHeaders(host, headers, body, keepAlive))) + "\r\n";
    if IsAscii(text) then Ok(Ascii(text) + body) else Raise(ValueError)
  }

  // ---------------------------------------------------------------------------------------------
  // The loop that builds the lines
  // ---------------------------------------------------------------------------------------------

  lemma {:induction false} HeaderLinesConcat(a: seq<Header>, b: seq<Header>)
    ensures HeaderLines(a + b) == HeaderLines(a) + HeaderLines(b)
  {
    if a == [] {
      assert a + b == b;
    } else {
      HeaderLinesConcat(a[1..], b);
      assert (a + b)[1..] == a[1..] + b;
    }
  }

  /** `"\r\n".join(lines) + "\r\n"`. */
  function PythonJoin(lines: seq<string>): string {
    if lines == [] then ""
    else if |lines| == 1 then lines[0]
    else lines[0] + "\r\n" + PythonJoin(lines[1..])
  }

  lemma {:induction false} JoinIs(lines: seq<string>)
    requires lines != []
    ensures PythonJoin(lines) + "\r\n" == JoinText(lines)
  {
    if |lines| == 1 {
      assert lines[1..] == [];
    } else {
      JoinIs(lines[1..]);
    }
  }

  function LengthHeader(headers: seq<Header>, body: Bytes): seq<Header> {
    if body != [] && !HasContentLength(headers) then [Header("Content-Length", JsonText.WriteNat(|body|))] else []
  }

  function ConnectionHeader(keepAlive: bool): Header {
    Header("Connection", if keepAlive then "keep-alive" else "close")
  }

  /** The lines of the parts are the lines of the whole. */
  lemma LinesOfParts(host: string, kept: seq<Header>, length: seq<Header>, connection: Header)
    ensures HeaderLines([Header("Host", host)] + kept + length + [connection]) ==
            ["Host: " + host] + HeaderLines(kept) + HeaderLines(length) + [HeaderLine(connection)]
  {
    var first := Header("Host", host);
    HeaderLinesConcat([first] + kept + length, [connection]);
    HeaderLinesConcat([first] + kept, length);
    HeaderLinesConcat([first], kept);
    OneLine(first);
    OneLine(connection);
    hide HeaderLines;
    assert HeaderLine(first) == "Host: " + host;
  }

  lemma OneLine(h: Header)
    ensures HeaderLines([h]) == [HeaderLine(h)]
  {
    assert [h][1..] == [];
    hide HeaderLine;
  }

  lemma NotHostStep(headers: seq<Header>, i: nat)
    requires i < |headers|
    ensures NotHost(headers[i..]) == (if Lower(headers[i].key) == "host" then [] else [headers[i]]) + NotHost(headers[i + 1..])
  {
    hide Lower;
    assert headers[i..][1..] == headers[i + 1..];
  }

  /** The header lines of the caller's headers, Host left out. */
  method KeptLines(headers: seq<Header>) returns (lines: seq<string>)
    ensures lines == HeaderLines(NotHost(headers))
  {
    hide Lower, HeaderLines, HeaderLine, NotHost;
    lines := [];
    ghost var kept: seq<Header> := [];
    assert headers[0..] == headers;
    NoLines();
    for i := 0 to |headers|
      invariant NotHost(headers) == kept + NotHost(headers[i..])
      invariant lines == HeaderLines(kept)
    {
      var header := headers[i];
      NotHostStep(headers, i);
      if Lower(header.key) != "host" {
        lines := lines + [HeaderLine(header)];
        HeaderLinesConcat(kept, [header]);
        OneLine(header);
        kept := kept + [header];
      }
    }
    assert headers[|headers|..] == [] && kept + [] == kept;
  }

  lemma NoLines()
    ensures HeaderLines([]) == [] && NotHost([]) == []
  {
  }

  method Build(host: string, verb: string, path: string, headers: seq<Header>, body: Bytes, keepAlive: bool) returns (r: Result<Bytes>)
    ensures r == BuildHttpRequest(host, verb, path, headers, body, keepAlive)
  {
    hide Lower, JoinText, PythonJoin, HeaderLine, HeaderLines, NotHost, HasContentLength, JsonText.WriteNat, RequestLine, Ascii;
    var kept := KeptLines(headers);
    var lines := [RequestLine(verb, path), "Host: " + host] + kept;
    var length := LengthHeader(headers, body);
    if length != [] {
      lines := lines + [HeaderLine(length[0])];
      OneLine(length[0]);
    }
    NoLines();
    lines := lines + [HeaderLine(ConnectionHeader(keepAlive))];
    LinesOfParts(host, NotHost(headers), length, ConnectionHeader(keepAlive));
    assert lines == [RequestLine(verb, path)] + HeaderLines(AllHeaders(host, headers, body, keepAlive));
    JoinIs(lines);
    var text := PythonJoin(lines) + "\r\n" + "\r\n";
    if !IsAscii(text) {
      return Raise(ValueError);
    }
    r := Ok(Ascii(text) + body);
  }
}
