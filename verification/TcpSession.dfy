/** The TCP transport: length-framed handshake messages, then a session that serves requests in order. */
module TcpSession {
  import opened Wrappers
  import opened ByteStrings
  import opened Primitives
  import opened RecordLayer
  import opened Application
  import Handshake
  import Http
  import HttpBuild
  import HttpRoundTrip

  // ---------------------------------------------------------------------------------------------
  // Handshake messages
  // ---------------------------------------------------------------------------------------------

  const LENGTH_SIZE := 4

  /** A message longer than the length field allows raises. */
  function Framed(payload: Bytes): Result<Bytes> {
    if |payload| < Pow256(LENGTH_SIZE) then Ok(BigEndian(|payload|, LENGTH_SIZE) + payload) else Raise(OverflowError)
  }

  /** The next message of a stream, and the rest; at the end of the stream it raises. */
  function NextMessage(stream: Bytes): (Result<Bytes>, Bytes) {
    if |stream| < LENGTH_SIZE then (Raise(EOFError), [])
    else
      var length, rest := FromBigEndian(stream[..LENGTH_SIZE]), stream[LENGTH_SIZE..];
      if |rest| < length then (Raise(EOFError), []) else (Ok(rest[..length]), rest[length..])
  }

  /** A framed message is read back whole, whatever follows it. */
  lemma NextOfFramed(payload: Bytes, more: Bytes)
    requires Framed(payload).Ok?
    ensures NextMessage(Framed(payload).value + more) == (Ok(payload), more)
  {
    hide BigEndian, FromBigEndian;
    FromBigEndianOfBigEndian(|payload|, LENGTH_SIZE);
    var header := BigEndian(|payload|, LENGTH_SIZE);
    var stream := header + payload + more;
    assert stream[..LENGTH_SIZE] == header && stream[LENGTH_SIZE..] == payload + more;
    assert (payload + more)[..|payload|] == payload && (payload + more)[|payload|..] == more;
  }

  /** Of a message that is cut off nothing is taken, and nothing after it is left. */
  lemma NextOfPart(payload: Bytes, part: Bytes)
    requires Framed(payload).Ok? && part < Framed(payload).value
    ensures NextMessage(part) == (Raise(EOFError), [])
  {
    hide BigEndian, FromBigEndian;
    FromBigEndianOfBigEndian(|payload|, LENGTH_SIZE);
    var whole := Framed(payload).value;
    assert part == whole[..|part|];
    if |part| >= LENGTH_SIZE {
      assert part[..LENGTH_SIZE] == whole[..LENGTH_SIZE] == BigEndian(|payload|, LENGTH_SIZE);
    }
  }

  /** However the socket splits the stream. */
  method RecvHandshake(sock: Socket) returns (r: Result<Bytes>)
    modifies sock`incoming
    ensures (r, sock.incoming) == NextMessage(old(sock.incoming))
  {
    hide FromBigEndian;
    var header := sock.ReadNBytes(LENGTH_SIZE);
    if header.Raise? {
      return Raise(header.exception);
    }
    r := sock.ReadNBytes(FromBigEndian(header.value));
  }

  // ---------------------------------------------------------------------------------------------
  // The session
  // ---------------------------------------------------------------------------------------------

  /** The server's side of a session. */
  datatype Service = Service(c: Suite, receiver: Direction, session: Handshake.Session, app: App)

  predicate Parses(raw: Bytes) {
    Http.Parse(raw).Ok?
  }

  /** `Connection: close`, in any case. */
  predicate AsksToClose(raw: Bytes) {
    var request := Http.Parse(raw);
    request.Ok? && "connection" in request.value.headers && Http.Lower(request.value.headers["connection"]) == "close"
  }

  /** The text is "close" in any mix of cases. */
  predicate IsClose(s: string) {
    |s| == 5 && forall i | 0 <= i < 5 :: s[i] == "close"[i] || s[i] == "CLOSE"[i]
  }

  lemma AsksToCloseIff(raw: Bytes)
    ensures AsksToClose(raw) <==>
            Http.Parse(raw).Ok? && "connection" in Http.Parse(raw).value.headers && IsClose(Http.Parse(raw).value.headers["connection"])
  {
    hide Http.Parse;
    if Http.Parse(raw).Ok? && "connection" in Http.Parse(raw).value.headers {
      LoweredIsClose(Http.Parse(raw).value.headers["connection"]);
    }
  }

  lemma LoweredIsClose(s: string)
    ensures Http.Lower(s) == "close" <==> IsClose(s)
  {
    if Http.Lower(s) == "close" {
      forall i | 0 <= i < 5 ensures s[i] == "close"[i] || s[i] == "CLOSE"[i] {
        assert Http.Lower(s)[i] == "close"[i];
      }
    }
  }

  function HandleOne(s: Service, before: seq<Handled>, request: Bytes): Handled {
    Handle(Parses, s.app, before, s.session, request)
  }

  /** The session goes on after a request that was answered and did not ask to close. */
  predicate GoesOn(h: Handled) {
    h.Ran? && h.outcome.Ok? && !AsksToClose(h.request)
  }

  /** All that is handled of a stream, after what was handled before. */
  function Serve(s: Service, recvSeq: nat, stream: Bytes, before: seq<Handled>): seq<Handled>
    decreases |stream|
  {
    var r := Receive(s.c, s.receiver, recvSeq, stream);
    if r.result.Raise? then before
    else
      var h := HandleOne(s, before, r.result.value);
      if GoesOn(h) then Serve(s, r.recvSeq, r.stream, before + [h]) else before + [h]
  }

  lemma {:induction false} ServeExtends(s: Service, recvSeq: nat, stream: Bytes, before: seq<Handled>)
    ensures before <= Serve(s, recvSeq, stream, before)
    decreases |stream|
  {
    hide Receive, AsksToClose, Parses;
    var r := Receive(s.c, s.receiver, recvSeq, stream);
    if r.result.Ok? {
      var h := HandleOne(s, before, r.result.value);
      if GoesOn(h) {
        ServeExtends(s, r.recvSeq, r.stream, before + [h]);
      }
    }
  }

  /** What the application answered, in order. */
  function Answers(handled: seq<Handled>): seq<Bytes> {
    if handled == [] then []
    else
      var last := handled[|handled| - 1];
      Answers(handled[..|handled| - 1]) + (if last.Ran? && last.outcome.Ok? then [last.outcome.value] else [])
  }

  lemma AnswersSnoc(handled: seq<Handled>, h: Handled)
    ensures Answers(handled + [h]) == Answers(handled) + (if h.Ran? && h.outcome.Ok? then [h.outcome.value] else [])
  {
    assert (handled + [h])[..|handled|] == handled;
  }

  /** These bytes are exactly the records of the answers. */
  predicate SentAll(c: Suite, d: Direction, start: nat, handled: seq<Handled>, sent: Bytes) {
    Sendable(c, d, start, Answers(handled)) && sent == Stream(c, d, start, Answers(handled))
  }

  /** They are the records of all answers but the last, and part of its record if it has one. */
  predicate SentInPart(c: Suite, d: Direction, start: nat, handled: seq<Handled>, sent: Bytes) {
    handled != [] &&
    var before, last := handled[..|handled| - 1], handled[|handled| - 1];
    last.Ran? && last.outcome.Ok? && Sendable(c, d, start, Answers(before)) &&
    var record := Record(c, d, start + |Answers(before)|, last.outcome.value);
    Stream(c, d, start, Answers(before)) <= sent &&
    sent <= Stream(c, d, start, Answers(before)) + (if record.Ok? then record.value else [])
  }

  /** All answers can be made into records, and the connection takes them. */
  predicate RoomFor(c: Suite, d: Direction, start: nat, handled: seq<Handled>, room: nat) {
    Sendable(c, d, start, Answers(handled)) && |Stream(c, d, start, Answers(handled))| <= room
  }

  /**
    The loop serves the stream, and sends the application's answers to what it handled, in order; it
    ends early exactly when there are answers that cannot be sent.
  */
  method HandleApplicationSession(s: Service, layer: KEMTLSRecordLayer) returns (handled: seq<Handled>, sendRaised: bool)
    requires layer.c == s.c && layer.receiver == s.receiver && AeadCorrect(s.c)
    modifies layer, layer.sock
    ensures var all := Serve(s, old(layer.recvSeq), old(layer.sock.incoming), []);
            handled <= all && (!sendRaised ==> handled == all)
    ensures old(layer.sock.sent) <= layer.sock.sent
    ensures var sent := layer.sock.sent[|old(layer.sock.sent)|..];
            if sendRaised then SentInPart(s.c, layer.sender, old(layer.sendSeq), handled, sent)
            else SentAll(s.c, layer.sender, old(layer.sendSeq), handled, sent)
    ensures !sendRaised ==> layer.sendSeq == old(layer.sendSeq) + |Answers(handled)|
    ensures sendRaised <==>
            !RoomFor(s.c, layer.sender, old(layer.sendSeq), Serve(s, old(layer.recvSeq), old(layer.sock.incoming), []), old(layer.sock.room))
  {
    hide Receive, Record, AsksToClose, Parses, AeadCorrect, SentAll, SentInPart, Answers, RoomFor;
    handled := [];
    sendRaised := false;
    ghost var start, was, room := layer.sendSeq, layer.sock.sent, layer.sock.room;
    NothingSent(s.c, layer.sender, start, was);
    while true
      invariant Serve(s, old(layer.recvSeq), old(layer.sock.incoming), []) == Serve(s, layer.recvSeq, layer.sock.incoming, handled)
      invariant was <= layer.sock.sent && SentAll(s.c, layer.sender, start, handled, layer.sock.sent[|was|..])
      invariant layer.sendSeq == start + |Answers(handled)| && layer.sock.room + |layer.sock.sent| == room + |was|
      decreases |layer.sock.incoming|
    {
      var request := layer.RecvRecord();
      if request.Raise? {
        AllFitted(s.c, layer.sender, start, handled, was, layer.sock.sent, room);
        return;
      }
      ghost var before, sentBefore := handled, layer.sock.sent;
      if !Parses(request.value) {
        handled := handled + [Rejected(request.value)];
        NothingMoreSent(s.c, layer.sender, start, before, Rejected(request.value), was, sentBefore);
        AllFitted(s.c, layer.sender, start, handled, was, layer.sock.sent, room);
        return;
      }
      var response := s.app(handled, s.session, request.value);
      handled := handled + [Ran(request.value, response)];
      if response.Raise? {
        NothingMoreSent(s.c, layer.sender, start, before, Ran(request.value, response), was, sentBefore);
        AllFitted(s.c, layer.sender, start, handled, was, layer.sock.sent, room);
        return;
      }
      var sent := layer.SendRecord(response.value);
      if sent.Raise? {
        sendRaised := true;
        ServeExtends(s, layer.recvSeq, layer.sock.incoming, handled);
        PartSent(s.c, layer.sender, start, before, request.value, response.value, was, sentBefore, layer.sock.sent);
        DoesNotFit(s.c, layer.sender, start, before, request.value, response.value, was, sentBefore, room,
                   Serve(s, old(layer.recvSeq), old(layer.sock.incoming), []));
        return;
      }
      AnswerSent(s.c, layer.sender, start, before, request.value, response.value, was, sentBefore, layer.sock.sent);
      if AsksToClose(request.value) {
        AllFitted(s.c, layer.sender, start, handled, was, layer.sock.sent, room);
        return;
      }
    }
  }

  lemma AllFitted(c: Suite, d: Direction, start: nat, handled: seq<Handled>, was: Bytes, now: Bytes, room: nat)
    requires was <= now && SentAll(c, d, start, handled, now[|was|..]) && |now| <= room + |was|
    ensures RoomFor(c, d, start, handled, room)
  {
    hide Sendable, Stream, Answers;
  }

  lemma {:induction false} AnswersPrefix(some: seq<Handled>, all: seq<Handled>)
    requires some <= all
    ensures Answers(some) <= Answers(all)
    decreases |all|
  {
    hide Answers;
    if some != all {
      var init := all[..|all| - 1];
      AnswersPrefix(some, init);
      AnswersSnoc(init, all[|all| - 1]);
      assert init + [all[|all| - 1]] == all;
    }
  }

  lemma DoesNotFit(c: Suite, d: Direction, start: nat, handled: seq<Handled>, request: Bytes, answer: Bytes, was: Bytes, now: Bytes,
                   room: nat, all: seq<Handled>)
    requires was <= now && SentAll(c, d, start, handled, now[|was|..])
    requires handled + [Ran(request, Ok(answer))] <= all
    requires var record := Record(c, d, start + |Answers(handled)|, answer);
             record.Raise? || |now| + |record.value| > room + |was|
    ensures !RoomFor(c, d, start, all, room)
  {
    hide Record, Stream, Answers;
    var h := Ran(request, Ok(answer));
    AnswersSnoc(handled, h);
    AnswersPrefix(handled + [h], all);
    if Sendable(c, d, start, Answers(all)) {
      var n := |Answers(handled)|;
      assert Answers(all)[n] == answer;
      assert Record(c, d, start + n, Answers(all)[n]).Ok?;
      StreamSnoc(c, d, start, Answers(handled), answer);
      StreamPrefix(c, d, start, Answers(handled + [h]), Answers(all));
    }
  }

  lemma NothingSent(c: Suite, d: Direction, start: nat, was: Bytes)
    ensures Answers([]) == [] && SentAll(c, d, start, [], was[|was|..])
  {
    assert was[|was|..] == [];
  }

  lemma NothingMoreSent(c: Suite, d: Direction, start: nat, handled: seq<Handled>, h: Handled, was: Bytes, now: Bytes)
    requires was <= now && SentAll(c, d, start, handled, now[|was|..]) && !(h.Ran? && h.outcome.Ok?)
    ensures SentAll(c, d, start, handled + [h], now[|was|..]) && |Answers(handled + [h])| == |Answers(handled)|
  {
    hide Sendable, Stream, Answers;
    AnswersSnoc(handled, h);
    assert Answers(handled + [h]) == Answers(handled);
  }

  lemma AnswerSent(c: Suite, d: Direction, start: nat, handled: seq<Handled>, request: Bytes, answer: Bytes, was: Bytes, now: Bytes,
                   now': Bytes)
    requires was <= now && SentAll(c, d, start, handled, now[|was|..]) && Record(c, d, start + |Answers(handled)|, answer).Ok?
    requires now' == now + Record(c, d, start + |Answers(handled)|, answer).value
    ensures was <= now' && SentAll(c, d, start, handled + [Ran(request, Ok(answer))], now'[|was|..])
    ensures |Answers(handled + [Ran(request, Ok(answer))])| == |Answers(handled)| + 1
  {
    hide Record, Sendable, Stream, Answers;
    AnswersSnoc(handled, Ran(request, Ok(answer)));
    StreamSnoc(c, d, start, Answers(handled), answer);
    assert now'[|was|..] == now[|was|..] + Record(c, d, start + |Answers(handled)|, answer).value;
  }

  lemma PartSent(c: Suite, d: Direction, start: nat, handled: seq<Handled>, request: Bytes, answer: Bytes, was: Bytes, now: Bytes,
                 now': Bytes)
    requires was <= now && SentAll(c, d, start, handled, now[|was|..])
    requires var record := Record(c, d, start + |Answers(handled)|, answer);
             now <= now' <= now + (if record.Ok? then record.value else [])
    ensures was <= now' && SentInPart(c, d, start, handled + [Ran(request, Ok(answer))], now'[|was|..])
  {
    hide Record, Sendable, Stream, Answers;
    var record := Record(c, d, start + |Answers(handled)|, answer);
    var more := if record.Ok? then record.value else [];
    assert (handled + [Ran(request, Ok(answer))])[..|handled|] == handled;
    assert (now + more)[|was|..] == now[|was|..] + more;
    assert now'[|was|..] <= (now + more)[|was|..] && now[|was|..] <= now'[|was|..];
  }

  // ---------------------------------------------------------------------------------------------
  // A client's requests
  // ---------------------------------------------------------------------------------------------

  /** The same on a list of requests. */
  function ServeList(s: Service, requests: seq<Bytes>, before: seq<Handled>): seq<Handled>
    decreases |requests|
  {
    if requests == [] then before
    else
      var h := HandleOne(s, before, requests[0]);
      if GoesOn(h) then ServeList(s, requests[1..], before + [h]) else before + [h]
  }

  /** Whatever the stream, the server handles what the record layer delivers of it as if it had the list. */
  lemma {:induction false} ServeIsServeList(s: Service, recvSeq: nat, stream: Bytes, before: seq<Handled>)
    ensures Serve(s, recvSeq, stream, before) == ServeList(s, Delivered(s.c, s.receiver, recvSeq, stream), before)
    decreases |stream|
  {
    hide Receive, AsksToClose, Parses;
    var r := Receive(s.c, s.receiver, recvSeq, stream);
    if r.result.Ok? {
      var h := HandleOne(s, before, r.result.value);
      if GoesOn(h) {
        ServeIsServeList(s, r.recvSeq, r.stream, before + [h]);
      }
    }
  }

  /** Through the record layer the server handles the client's requests as if it had their list. */
  lemma ServeOfStream(s: Service, start: nat, requests: seq<Bytes>, before: seq<Handled>)
    requires AeadCorrect(s.c) && Sendable(s.c, s.receiver, start, requests)
    ensures Serve(s, start, Stream(s.c, s.receiver, start, requests), before) == ServeList(s, requests, before)
  {
    hide Serve, ServeList, AeadCorrect;
    DeliversPrefix(s.c, s.receiver, start, requests, Stream(s.c, s.receiver, start, requests));
    ServeIsServeList(s, start, Stream(s.c, s.receiver, start, requests), before);
  }

  /** What was handled after `before`: one request of the list after the other, each but the last answered. */
  lemma {:induction false} ServeListHandles(s: Service, requests: seq<Bytes>, before: seq<Handled>)
    ensures var all := ServeList(s, requests, before);
            before <= all && |all| <= |before| + |requests| &&
            (forall k | |before| <= k < |all| :: all[k] == HandleOne(s, all[..k], requests[k - |before|])) &&
            forall k | |before| <= k < |all| - 1 :: GoesOn(all[k])
    decreases |requests|
  {
    hide AsksToClose, Parses;
    if requests != [] {
      var h := HandleOne(s, before, requests[0]);
      var all := ServeList(s, requests, before);
      if GoesOn(h) {
        ServeListHandles(s, requests[1..], before + [h]);
      }
      forall k | |before| <= k < |all| ensures all[k] == HandleOne(s, all[..k], requests[k - |before|]) {
        if k == |before| {
          assert all[..k] == before;
        }
      }
    }
  }

  /** When each but the last was answered, the k-th answer is that to the k-th request. */
  lemma {:induction false} AnswersInOrder(handled: seq<Handled>)
    requires forall k | 0 <= k < |handled| - 1 :: handled[k].Ran? && handled[k].outcome.Ok?
    ensures |handled| - 1 <= |Answers(handled)| <= |handled|
    ensures forall k | 0 <= k < |Answers(handled)| :: handled[k].Ran? && handled[k].outcome == Ok(Answers(handled)[k])
  {
    hide Answers;
    if handled == [] {
      AnswersOfNone();
    } else {
      var init, last := handled[..|handled| - 1], handled[|handled| - 1];
      AnswersInOrder(init);
      AnswersSnoc(init, last);
      assert init + [last] == handled;
      AllAnswered(init);
    }
  }

  lemma AnswersOfNone()
    ensures Answers([]) == []
  {
  }

  lemma {:induction false} AllAnswered(handled: seq<Handled>)
    requires forall k | 0 <= k < |handled| :: handled[k].Ran? && handled[k].outcome.Ok?
    ensures |Answers(handled)| == |handled|
  {
    if handled != [] {
      AllAnswered(handled[..|handled| - 1]);
    }
  }

  /** Any part of a stream of answers, and what the client receives from it. */
  lemma AnswersReceived(s: Service, sender: Direction, start: nat, requests: seq<Bytes>, arrived: Bytes, handled: seq<Handled>,
                        replyStart: nat, replied: Bytes)
    requires AeadCorrect(s.c) && Sendable(s.c, s.receiver, start, requests) && arrived <= Stream(s.c, s.receiver, start, requests)
    requires handled <= Serve(s, start, arrived, [])
    requires Sendable(s.c, sender, replyStart, Answers(handled)) && replied <= Stream(s.c, sender, replyStart, Answers(handled))
    ensures var received := Delivered(s.c, sender, replyStart, replied);
            |received| <= |handled| <= |requests| &&
            forall k | 0 <= k < |received| ::
              Parses(requests[k]) && s.app(handled[..k], s.session, requests[k]) == Ok(received[k])
  {
    hide AeadCorrect, Sendable, Stream, Delivered, Serve, ServeList, Answers, Parses, AsksToClose;
    var delivered := Delivered(s.c, s.receiver, start, arrived);
    var all := Serve(s, start, arrived, []);
    DeliversPrefix(s.c, s.receiver, start, requests, arrived);
    ServeIsServeList(s, start, arrived, []);
    ServeListHandles(s, delivered, []);
    AnswersInOrder(handled);
    DeliversPrefix(s.c, sender, replyStart, Answers(handled), replied);
    var received := Delivered(s.c, sender, replyStart, replied);
    forall k | 0 <= k < |received|
      ensures Parses(requests[k]) && s.app(handled[..k], s.session, requests[k]) == Ok(received[k])
    {
      assert all[k] == HandleOne(s, all[..k], delivered[k]) && delivered[k] == requests[k];
      assert all[k] == handled[k] && all[..k] == handled[..k];
      assert received[k] == Answers(handled)[k];
    }
  }

  /**
    End to end: any part of the client's stream of requests arrives, the session handles and sends
    what it does, broken off or not, and any part of that arrives. The k-th plaintext that the client
    receives is the application's answer to its k-th request, asked after those before it.
  */
  lemma RepliesAnswerRequests(s: Service, sender: Direction, start: nat, requests: seq<Bytes>, arrived: Bytes, handled: seq<Handled>,
                              replyStart: nat, sent: Bytes, replied: Bytes)
    requires AeadCorrect(s.c) && Sendable(s.c, s.receiver, start, requests) && arrived <= Stream(s.c, s.receiver, start, requests)
    requires handled <= Serve(s, start, arrived, [])
    requires SentAll(s.c, sender, replyStart, handled, sent) || SentInPart(s.c, sender, replyStart, handled, sent)
    requires replied <= sent
    ensures var received := Delivered(s.c, sender, replyStart, replied);
            |received| <= |handled| <= |requests| &&
            forall k | 0 <= k < |received| ::
              Parses(requests[k]) && s.app(handled[..k], s.session, requests[k]) == Ok(received[k])
  {
    hide AeadCorrect, Sendable, Stream, Delivered, Serve, Answers, Parses, Record;
    if SentAll(s.c, sender, replyStart, handled, sent) {
      AnswersReceived(s, sender, start, requests, arrived, handled, replyStart, replied);
    } else {
      var before, last := handled[..|handled| - 1], handled[|handled| - 1];
      AnswersSnoc(before, last);
      assert before + [last] == handled;
      if Record(s.c, sender, replyStart + |Answers(before)|, last.outcome.value).Ok? {
        StreamSnoc(s.c, sender, replyStart, Answers(before), last.outcome.value);
        AnswersReceived(s, sender, start, requests, arrived, handled, replyStart, replied);
      } else {
        assert Stream(s.c, sender, replyStart, Answers(before)) + [] == Stream(s.c, sender, replyStart, Answers(before));
        AnswersReceived(s, sender, start, requests, arrived, before, replyStart, replied);
        BoundedByServe(s, start, requests, arrived);
        forall k | 0 <= k < |Delivered(s.c, sender, replyStart, replied)| ensures before[..k] == handled[..k] {
        }
      }
    }
  }

  lemma BoundedByServe(s: Service, start: nat, requests: seq<Bytes>, arrived: Bytes)
    requires AeadCorrect(s.c) && Sendable(s.c, s.receiver, start, requests) && arrived <= Stream(s.c, s.receiver, start, requests)
    ensures |Serve(s, start, arrived, [])| <= |requests|
  {
    hide AeadCorrect, Sendable, Stream, Delivered, Serve, ServeList;
    DeliversPrefix(s.c, s.receiver, start, requests, arrived);
    ServeIsServeList(s, start, arrived, []);
    ServeListHandles(s, Delivered(s.c, s.receiver, start, arrived), []);
  }

  /** A request of the client library, with its choice to keep the connection. */
  datatype Wanted = Wanted(host: string, verb: string, path: string, headers: seq<HttpBuild.Header>, body: Bytes, keepAlive: bool)

  predicate WellFormed(w: Wanted) {
    HttpRoundTrip.CleanText(w.host) && HttpRoundTrip.CleanWord(w.verb) && HttpRoundTrip.CleanWord(w.path) &&
    HttpRoundTrip.AllClean(w.headers)
  }

  function Built(w: Wanted): Result<Bytes> {
    HttpBuild.BuildHttpRequest(w.host, w.verb, w.path, w.headers, w.body, w.keepAlive)
  }

  /** A built request is parsed, and asks to close exactly when it was not built to keep the connection. */
  lemma BuiltAsks(w: Wanted)
    requires WellFormed(w)
    ensures Built(w).Ok? && Parses(Built(w).value) && (AsksToClose(Built(w).value) <==> !w.keepAlive)
  {
    hide HttpBuild.BuildHttpRequest, Http.Parse, HttpRoundTrip.CleanText, HttpRoundTrip.CleanWord, HttpRoundTrip.AllClean,
         HttpBuild.AllHeaders, HttpRoundTrip.LastValue, Http.Lower;
    HttpRoundTrip.ParsedHeaders(w.host, w.verb, w.path, w.headers, w.body, w.keepAlive, "connection");
    HttpRoundTrip.BuiltHeaders(w.host, w.headers, w.body, w.keepAlive, "connection");
    LoweredChoices();
  }

  lemma LoweredChoices()
    ensures Http.Lower("close") == "close" && Http.Lower("keep-alive") != "close"
  {
    assert |Http.Lower("keep-alive")| == 10;
  }

  /** The application answers whatever it is asked. */
  ghost predicate AlwaysAnswers(app: App) {
    forall before, session, request :: app(before, session, request).Ok?
  }

  /**
    Requests built to keep the connection are all served, in order and once each, up to and with the
    first that was not; nothing after it is.
  */
  lemma {:induction false} ServesUntilClose(s: Service, wanted: seq<Wanted>, requests: seq<Bytes>, before: seq<Handled>, k: nat)
    requires AlwaysAnswers(s.app) && |requests| == |wanted| && k < |wanted|
    requires forall i | 0 <= i < |wanted| :: WellFormed(wanted[i]) && Built(wanted[i]) == Ok(requests[i])
    requires !wanted[k].keepAlive && forall i | 0 <= i < k :: wanted[i].keepAlive
    ensures var all := ServeList(s, requests, before);
            |all| == |before| + k + 1 && before <= all &&
            forall i | 0 <= i <= k :: all[|before| + i] == HandleOne(s, all[..|before| + i], requests[i]) && all[|before| + i].request == requests[i]
    decreases k
  {
    hide Built, WellFormed, AsksToClose, Parses;
    BuiltAsks(wanted[0]);
    var h := HandleOne(s, before, requests[0]);
    var all := ServeList(s, requests, before);
    if k > 0 {
      ServesUntilClose(s, wanted[1..], requests[1..], before + [h], k - 1);
      assert all == ServeList(s, requests[1..], before + [h]);
      forall i | 0 <= i <= k
        ensures all[|before| + i] == HandleOne(s, all[..|before| + i], requests[i]) && all[|before| + i].request == requests[i]
      {
        if i == 0 {
          assert all[..|before|] == before;
        } else {
          assert all[|before + [h]| + (i - 1)] == HandleOne(s, all[..|before + [h]| + (i - 1)], requests[1..][i - 1]);
        }
      }
    } else {
      assert all == before + [h] && all[..|before|] == before;
    }
  }
}
