/** TCP records: sequence number (8) | length (4) | ciphertext, over a socket that splits as it likes. */
module RecordLayer {
  import opened Wrappers
  import opened ByteStrings
  import opened Primitives
  import opened Nonces

  const HEADER_SIZE := 12

  // ---------------------------------------------------------------------------------------------
  // Framing
  // ---------------------------------------------------------------------------------------------

  function RecordHeader(seqNumber: int, length: nat): (r: Result<Bytes>)
    ensures r.Ok? <==> 0 <= seqNumber < Pow256(8) && length < Pow256(4)
    ensures r.Ok? ==> |r.value| == HEADER_SIZE
  {
    if 0 <= seqNumber < Pow256(8) && length < Pow256(4)
    then Ok(BigEndian(seqNumber, 8) + BigEndian(length, 4))
    else Raise(ValueError)
  }

  function FrameRecord(seqNumber: int, payload: Bytes): Result<Bytes> {
    var header :- RecordHeader(seqNumber, |payload|);
    Ok(header + payload)
  }

  function ParseRecord(data: Bytes): Result<(nat, Bytes)> {
    if |data| < HEADER_SIZE then Raise(ValueError)
    else if |data| != HEADER_SIZE + FromBigEndian(data[8..12]) then Raise(ValueError)
    else Ok((FromBigEndian(data[..8]), data[HEADER_SIZE..]))
  }

  lemma HeaderFields(seqNumber: int, length: nat, rest: Bytes)
    requires RecordHeader(seqNumber, length).Ok?
    ensures var data := RecordHeader(seqNumber, length).value + rest;
            FromBigEndian(data[..8]) == seqNumber && FromBigEndian(data[8..12]) == length && data[12..] == rest
  {
    var data := RecordHeader(seqNumber, length).value + rest;
    assert data[..8] == BigEndian(seqNumber, 8);
    assert data[8..12] == BigEndian(length, 4);
    FromBigEndianOfBigEndian(seqNumber, 8);
    FromBigEndianOfBigEndian(length, 4);
  }

  /** Framing and parsing are inverse, for every record. */
  lemma ParseOfFrame(seqNumber: int, payload: Bytes)
    requires FrameRecord(seqNumber, payload).Ok?
    ensures ParseRecord(FrameRecord(seqNumber, payload).value) == Ok((seqNumber, payload))
  {
    HeaderFields(seqNumber, |payload|, payload);
  }

  lemma ParseOfParts(header: Bytes, payload: Bytes)
    requires |header| == HEADER_SIZE && FromBigEndian(header[8..12]) == |payload|
    ensures ParseRecord(header + payload) == Ok((FromBigEndian(header[..8]), payload))
  {
    hide FromBigEndian;
    var data := header + payload;
    assert data[..8] == header[..8] && data[8..12] == header[8..12] && data[HEADER_SIZE..] == payload;
  }

  lemma FrameOfParse(data: Bytes)
    requires ParseRecord(data).Ok?
    ensures FrameRecord(ParseRecord(data).value.0, ParseRecord(data).value.1) == Ok(data)
  {
    BigEndianOfFromBigEndian(data[..8]);
    BigEndianOfFromBigEndian(data[8..12]);
    assert data == data[..8] + data[8..12] + data[12..];
  }

  // ---------------------------------------------------------------------------------------------
  // Sending and receiving one record
  // ---------------------------------------------------------------------------------------------

  /** The key and IV of one direction. */
  datatype Direction = Direction(key: Bytes, iv: Bytes)

  function Protect(c: Suite, d: Direction, seqNumber: int, plain: Bytes, aad: Bytes): Result<Bytes> {
    var nonce :- XorIvWithSeq(d.iv, seqNumber);
    Ok(c.aeadSeal(d.key, nonce, plain, aad))
  }

  function Unprotect(c: Suite, d: Direction, seqNumber: int, ciphertext: Bytes, aad: Bytes): Result<Bytes> {
    var nonce :- XorIvWithSeq(d.iv, seqNumber);
    if |ciphertext| < TAG_SIZE then Raise(ValueError)
    else
      match c.aeadOpen(d.key, nonce, ciphertext, aad)
      case None => Raise(ValueError)
      case Some(plain) => Ok(plain)
  }

  /** The bytes of one record; it raises before sealing when the number or the length is too large. */
  function Record(c: Suite, d: Direction, seqNumber: int, plain: Bytes): Result<Bytes> {
    if seqNumber >= SEQ_LIMIT then Raise(OverflowError)
    else
      var header :- RecordHeader(seqNumber, |plain| + TAG_SIZE);
      var ciphertext :- Protect(c, d, seqNumber, plain, header);
      FrameRecord(seqNumber, ciphertext)
  }

  /** What a receiver that expects `recvSeq` makes of the bytes that the peer sends before it closes. */
  datatype Received = Received(result: Result<Bytes>, recvSeq: nat, stream: Bytes)

  function Receive(c: Suite, d: Direction, recvSeq: nat, stream: Bytes): (r: Received)
    ensures r.result.Ok? ==> |r.stream| < |stream| && r.recvSeq == recvSeq + 1
    ensures r.result.Raise? ==> r.recvSeq == recvSeq
  {
    if |stream| < HEADER_SIZE then Received(Raise(EOFError), recvSeq, [])
    else
      var header, rest := stream[..HEADER_SIZE], stream[HEADER_SIZE..];
      var length := FromBigEndian(header[8..12]);
      if FromBigEndian(header[..8]) != recvSeq then Received(Raise(ValueError), recvSeq, rest)
      else if |rest| < length then Received(Raise(EOFError), recvSeq, [])
      else
        match Unprotect(c, d, recvSeq, rest[..length], header)
        case Raise(e) => Received(Raise(e), recvSeq, rest[length..])
        case Ok(plain) => Received(Ok(plain), recvSeq + 1, rest[length..])
  }

  /** The same, case by case. */
  lemma ReceiveIs(c: Suite, d: Direction, recvSeq: nat, stream: Bytes)
    ensures |stream| < HEADER_SIZE ==> Receive(c, d, recvSeq, stream) == Received(Raise(EOFError), recvSeq, [])
    ensures |stream| >= HEADER_SIZE ==>
              var header, rest := stream[..HEADER_SIZE], stream[HEADER_SIZE..];
              var length := FromBigEndian(header[8..12]);
              Receive(c, d, recvSeq, stream) ==
              if FromBigEndian(header[..8]) != recvSeq then Received(Raise(ValueError), recvSeq, rest)
              else if |rest| < length then Received(Raise(EOFError), recvSeq, [])
              else
                var plain := Unprotect(c, d, recvSeq, rest[..length], header);
                Received(plain, if plain.Ok? then recvSeq + 1 else recvSeq, rest[length..])
  {
    hide FromBigEndian, Unprotect;
  }

  // ---------------------------------------------------------------------------------------------
  // The socket and the record layer
  // ---------------------------------------------------------------------------------------------

  /**
    A socket of which `incoming` is still to be read before the peer closes it, and which takes `room`
    more bytes before the connection breaks.
  */
  class Socket {
    var incoming: Bytes
    var sent: Bytes
    var room: nat

    /** The operating system returns some of the bytes asked for, and none only at the end. */
    method Recv(n: nat) returns (chunk: Bytes)
      requires n > 0
      modifies `incoming
      ensures |chunk| <= n && chunk + incoming == old(incoming)
      ensures chunk == [] <==> old(incoming) == []
    {
      if incoming == [] {
        return [];
      }
      var k: nat :| 1 <= k <= n && k <= |incoming|;
      chunk := incoming[..k];
      incoming := incoming[k..];
    }

    /** Reads until all n bytes are there, however the stream is split. */
    method ReadNBytes(n: nat) returns (r: Result<Bytes>)
      modifies `incoming
      ensures n <= |old(incoming)| ==> r == Ok(old(incoming)[..n]) && incoming == old(incoming)[n..]
      ensures n > |old(incoming)| ==> r == Raise(EOFError) && incoming == []
    {
      var data: Bytes := [];
      while |data| < n
        invariant |data| <= n
        invariant data + incoming == old(incoming)
        decreases n - |data|
      {
        var chunk := Recv(n - |data|);
        if chunk == [] {
          return Raise(EOFError);
        }
        data := data + chunk;
      }
      r := Ok(data);
    }

    /** Everything is sent, or the connection breaks after some of it and the call raises. */
    method SendAll(data: Bytes) returns (raised: bool)
      modifies `sent, `room
      ensures raised <==> |data| > old(room)
      ensures sent == old(sent) + (if raised then data[..old(room)] else data)
      ensures room == if raised then 0 else old(room) - |data|
    {
      raised := |data| > room;
      sent := sent + (if raised then data[..room] else data);
      room := if raised then 0 else room - |data|;
    }
  }

  class KEMTLSRecordLayer {
    const c: Suite
    const sock: Socket
    const sender: Direction
    const receiver: Direction
    var sendSeq: nat
    var recvSeq: nat
    /** The sequence numbers with which the sending key has sealed so far. */
    ghost var sealed: seq<nat>

    /** A client sends with the client keys and receives with the server keys; a server the reverse. */
    constructor (c: Suite, sock: Socket, client: Direction, server: Direction, isClient: bool)
      ensures this.c == c && this.sock == sock && sendSeq == recvSeq == 0 && sealed == []
      ensures sender == (if isClient then client else server) && receiver == (if isClient then server else client)
    {
      this.c := c;
      this.sock := sock;
      this.sender := if isClient then client else server;
      this.receiver := if isClient then server else client;
      sendSeq := 0;
      recvSeq := 0;
      sealed := [];
    }

    /** The number is stepped only after the socket took the record. */
    method SendRecord(plain: Bytes) returns (r: Result<()>)
      requires AeadCorrect(c)
      modifies this`sendSeq, this`sealed, sock`sent, sock`room
      ensures var record := Record(c, sender, old(sendSeq), plain);
              (r.Ok? <==> record.Ok? && |record.value| <= old(sock.room)) &&
              (r.Ok? ==> sock.sent == old(sock.sent) + record.value && sock.room == old(sock.room) - |record.value|)
      ensures sendSeq == old(sendSeq) + (if r.Ok? then 1 else 0)
      ensures sealed == old(sealed) + (if Record(c, sender, old(sendSeq), plain).Ok? then [old(sendSeq)] else [])
      ensures Record(c, sender, old(sendSeq), plain).Raise? ==> r.Raise? && sock.sent == old(sock.sent)
      ensures Record(c, sender, old(sendSeq), plain).Ok? ==>
                old(sock.sent) <= sock.sent <= old(sock.sent) + Record(c, sender, old(sendSeq), plain).value
    {
      if sendSeq >= SEQ_LIMIT {
        return Raise(OverflowError);
      }
      var header := RecordHeader(sendSeq, |plain| + TAG_SIZE);
      if header.Raise? {
        return Raise(header.exception);
      }
      var ciphertext := Protect(c, sender, sendSeq, plain, header.value);
      if ciphertext.Raise? {
        return Raise(ciphertext.exception);
      }
      sealed := sealed + [sendSeq];
      var framed := FrameRecord(sendSeq, ciphertext.value);
      assert framed.Ok?;
      var raised := sock.SendAll(framed.value);
      if raised {
        return Raise(ValueError);
      }
      sendSeq := sendSeq + 1;
      r := Ok(());
    }

    /** However the socket splits the stream, the result is the one for the stream as a whole. */
    method RecvRecord() returns (r: Result<Bytes>)
      modifies this`recvSeq, sock`incoming
      ensures Received(r, recvSeq, sock.incoming) == Receive(c, receiver, old(recvSeq), old(sock.incoming))
    {
      hide Unprotect, FromBigEndian, ParseRecord, Receive;
      ReceiveIs(c, receiver, recvSeq, sock.incoming);
      var header := sock.ReadNBytes(HEADER_SIZE);
      if header.Raise? {
        return Raise(header.exception);
      }
      var seqNumber := FromBigEndian(header.value[..8]);
      var length := FromBigEndian(header.value[8..12]);
      if seqNumber != recvSeq {
        return Raise(ValueError);
      }
      var ciphertext := sock.ReadNBytes(length);
      if ciphertext.Raise? {
        return Raise(ciphertext.exception);
      }
      ParseOfParts(header.value, ciphertext.value);
      var parsed := ParseRecord(header.value + ciphertext.value);
      var plain := Unprotect(c, receiver, recvSeq, parsed.value.1, header.value);
      if plain.Raise? {
        return Raise(plain.exception);
      }
      recvSeq := recvSeq + 1;
      r := Ok(plain.value);
    }
  }

  // ---------------------------------------------------------------------------------------------
  // Whole streams
  // ---------------------------------------------------------------------------------------------

  /** Every plaintext fits a record and its number is below the limit. */
  predicate Sendable(c: Suite, d: Direction, start: nat, plains: seq<Bytes>) {
    forall i | 0 <= i < |plains| :: Record(c, d, start + i, plains[i]).Ok?
  }

  /** The bytes a sender writes for a list of plaintexts. */
  function Stream(c: Suite, d: Direction, start: nat, plains: seq<Bytes>): Bytes
    requires Sendable(c, d, start, plains)
    decreases |plains|
  {
    if plains == [] then []
    else
      assert Record(c, d, start + 0, plains[0]).Ok?;
      assert Sendable(c, d, start + 1, plains[1..]) by {
        forall i | 0 <= i < |plains[1..]| ensures Record(c, d, start + 1 + i, plains[1..][i]).Ok? {
          assert Record(c, d, start + (i + 1), plains[i + 1]).Ok?;
        }
      }
      Record(c, d, start, plains[0]).value + Stream(c, d, start + 1, plains[1..])
  }

  /** One more plaintext is one more record. */
  lemma {:induction false} StreamSnoc(c: Suite, d: Direction, start: nat, plains: seq<Bytes>, plain: Bytes)
    requires Sendable(c, d, start, plains) && Record(c, d, start + |plains|, plain).Ok?
    ensures Sendable(c, d, start, plains + [plain])
    ensures Stream(c, d, start, plains + [plain]) == Stream(c, d, start, plains) + Record(c, d, start + |plains|, plain).value
    decreases |plains|
  {
    hide Record;
    if plains == [] {
      assert [plain][1..] == [];
    } else {
      forall i | 0 <= i < |plains[1..]| ensures Record(c, d, start + 1 + i, plains[1..][i]).Ok? {
        assert Record(c, d, start + (i + 1), plains[i + 1]).Ok?;
      }
      StreamSnoc(c, d, start + 1, plains[1..], plain);
      assert (plains + [plain])[1..] == plains[1..] + [plain];
    }
  }

  /** The stream of a list begins with that of a shorter one. */
  lemma {:induction false} StreamPrefix(c: Suite, d: Direction, start: nat, some: seq<Bytes>, plains: seq<Bytes>)
    requires some <= plains && Sendable(c, d, start, plains)
    ensures Sendable(c, d, start, some) && Stream(c, d, start, some) <= Stream(c, d, start, plains)
    decreases |some|
  {
    hide Record;
    if some != [] {
      forall i | 0 <= i < |plains[1..]| ensures Record(c, d, start + 1 + i, plains[1..][i]).Ok? {
        assert Record(c, d, start + (i + 1), plains[i + 1]).Ok?;
      }
      StreamPrefix(c, d, start + 1, some[1..], plains[1..]);
      assert Record(c, d, start, some[0]).value == Record(c, d, start, plains[0]).value;
    }
  }

  /** What repeated receiving delivers until it raises. */
  function Delivered(c: Suite, d: Direction, recvSeq: nat, stream: Bytes): seq<Bytes>
    decreases |stream|
  {
    var r := Receive(c, d, recvSeq, stream);
    if r.result.Raise? then [] else [r.result.value] + Delivered(c, d, r.recvSeq, r.stream)
  }

  /** The number a receiver expects once receiving raises. */
  function FinalSeq(c: Suite, d: Direction, recvSeq: nat, stream: Bytes): nat
    decreases |stream|
  {
    var r := Receive(c, d, recvSeq, stream);
    if r.result.Raise? then r.recvSeq else FinalSeq(c, d, r.recvSeq, r.stream)
  }

  /** It is the number it started with and the count of what was delivered, for every stream at all. */
  lemma {:induction false} SeqCountsDelivered(c: Suite, d: Direction, recvSeq: nat, stream: Bytes)
    ensures FinalSeq(c, d, recvSeq, stream) == recvSeq + |Delivered(c, d, recvSeq, stream)|
    decreases |stream|
  {
    hide Receive;
    var r := Receive(c, d, recvSeq, stream);
    if r.result.Ok? {
      SeqCountsDelivered(c, d, r.recvSeq, r.stream);
    }
  }

  /** Receiving on the record layer until it raises delivers that, and leaves that number. */
  method ReceiveAll(layer: KEMTLSRecordLayer) returns (plains: seq<Bytes>)
    modifies layer`recvSeq, layer.sock`incoming
    ensures plains == Delivered(layer.c, layer.receiver, old(layer.recvSeq), old(layer.sock.incoming))
    ensures layer.recvSeq == old(layer.recvSeq) + |plains|
  {
    hide Receive;
    plains := [];
    SeqCountsDelivered(layer.c, layer.receiver, layer.recvSeq, layer.sock.incoming);
    while true
      invariant plains + Delivered(layer.c, layer.receiver, layer.recvSeq, layer.sock.incoming) ==
                Delivered(layer.c, layer.receiver, old(layer.recvSeq), old(layer.sock.incoming))
      invariant FinalSeq(layer.c, layer.receiver, layer.recvSeq, layer.sock.incoming) ==
                FinalSeq(layer.c, layer.receiver, old(layer.recvSeq), old(layer.sock.incoming))
      decreases |layer.sock.incoming|
    {
      var plain := layer.RecvRecord();
      if plain.Raise? {
        return;
      }
      plains := plains + [plain.value];
    }
  }

  lemma RecordShape(c: Suite, d: Direction, seqNumber: nat, plain: Bytes)
    requires AeadCorrect(c) && Record(c, d, seqNumber, plain).Ok?
    ensures var header := RecordHeader(seqNumber, |plain| + TAG_SIZE);
            header.Ok? && XorIvWithSeq(d.iv, seqNumber).Ok? &&
            Record(c, d, seqNumber, plain).value ==
            header.value + c.aeadSeal(d.key, XorIvWithSeq(d.iv, seqNumber).value, plain, header.value)
  {
  }

  /** The next record, with anything after it, is received as its plaintext. */
  lemma ReceiveRecord(c: Suite, d: Direction, seqNumber: nat, plain: Bytes, rest: Bytes)
    requires AeadCorrect(c) && Record(c, d, seqNumber, plain).Ok?
    ensures Receive(c, d, seqNumber, Record(c, d, seqNumber, plain).value + rest) == Received(Ok(plain), seqNumber + 1, rest)
  {
    RecordShape(c, d, seqNumber, plain);
    var header := RecordHeader(seqNumber, |plain| + TAG_SIZE).value;
    var sealed := c.aeadSeal(d.key, XorIvWithSeq(d.iv, seqNumber).value, plain, header);
    var stream := Record(c, d, seqNumber, plain).value + rest;
    hide Record, RecordHeader, XorIvWithSeq;
    assert stream[..HEADER_SIZE] == header && stream[HEADER_SIZE..] == sealed + rest;
    HeaderFields(seqNumber, |plain| + TAG_SIZE, []);
    assert header + [] == header;
    assert (sealed + rest)[..|sealed|] == sealed && (sealed + rest)[|sealed|..] == rest;
  }

  /** Of a record that is cut off nothing is delivered. */
  lemma ReceivePartial(c: Suite, d: Direction, seqNumber: nat, plain: Bytes, part: Bytes)
    requires AeadCorrect(c) && Record(c, d, seqNumber, plain).Ok?
    requires part < Record(c, d, seqNumber, plain).value
    ensures Receive(c, d, seqNumber, part) == Received(Raise(EOFError), seqNumber, [])
  {
    RecordShape(c, d, seqNumber, plain);
    var whole := Record(c, d, seqNumber, plain).value;
    var header := RecordHeader(seqNumber, |plain| + TAG_SIZE).value;
    hide Record, RecordHeader, XorIvWithSeq;
    if |part| >= HEADER_SIZE {
      assert part[..HEADER_SIZE] == whole[..HEADER_SIZE] == header;
      HeaderFields(seqNumber, |plain| + TAG_SIZE, []);
      assert header + [] == header;
    }
  }

  /**
    Whatever prefix of the sender's stream arrives, the receiver delivers a prefix of what was
    sent, in order; from the whole stream it delivers everything.
  */
  lemma {:induction false} DeliversPrefix(c: Suite, d: Direction, start: nat, plains: seq<Bytes>, part: Bytes)
    requires AeadCorrect(c) && Sendable(c, d, start, plains)
    requires part <= Stream(c, d, start, plains)
    ensures Delivered(c, d, start, part) <= plains
    ensures part == Stream(c, d, start, plains) ==> Delivered(c, d, start, part) == plains
    decreases |plains|
  {
    hide Receive, Record;
    if plains == [] {
      ReceiveNothing(c, d, start);
    } else {
      assert Record(c, d, start + 0, plains[0]).Ok?;
      var first := Record(c, d, start, plains[0]).value;
      var more := Stream(c, d, start + 1, plains[1..]);
      if |part| < |first| {
        assert part == Stream(c, d, start, plains)[..|part|];
        assert part == first[..|part|];
        ReceivePartial(c, d, start, plains[0], part);
      } else {
        var rest := part[|first|..];
        assert part == first + rest by {
          assert part[..|first|] == Stream(c, d, start, plains)[..|first|] == first;
        }
        assert rest <= more by {
          assert more == Stream(c, d, start, plains)[|first|..];
        }
        ReceiveRecord(c, d, start, plains[0], rest);
        DeliversPrefix(c, d, start + 1, plains[1..], rest);
        assert plains == [plains[0]] + plains[1..];
      }
    }
  }

  /** Every ciphertext of this stream that opens is one that the sender sealed, under its number and header. */
  ghost predicate NotForged(c: Suite, d: Direction, recvSeq: nat, stream: Bytes, start: nat, plains: seq<Bytes>)
    decreases |stream|
  {
    var r := Receive(c, d, recvSeq, stream);
    r.result.Ok? ==>
      (exists i :: 0 <= i < |plains| && XorIvWithSeq(d.iv, start + i).Ok? &&
                   XorIvWithSeq(d.iv, start + i) == XorIvWithSeq(d.iv, recvSeq) && r.result.value == plains[i]) &&
      NotForged(c, d, r.recvSeq, r.stream, start, plains)
  }

  /**
    Whatever bytes reach the receiver, in place of the sender's stream, it delivers a prefix of what
    was sent: records that were dropped, repeated, reordered or changed end the delivery.
  */
  lemma {:induction false} TamperedDeliversPrefix(c: Suite, d: Direction, recvSeq: nat, stream: Bytes, start: nat, plains: seq<Bytes>)
    requires start <= recvSeq <= start + |plains| && NotForged(c, d, recvSeq, stream, start, plains)
    ensures Delivered(c, d, recvSeq, stream) <= plains[recvSeq - start..]
    decreases |stream|
  {
    hide Receive, XorIvWithSeq;
    var r := Receive(c, d, recvSeq, stream);
    if r.result.Ok? {
      var i :| 0 <= i < |plains| && XorIvWithSeq(d.iv, start + i).Ok? &&
               XorIvWithSeq(d.iv, start + i) == XorIvWithSeq(d.iv, recvSeq) && r.result.value == plains[i];
      NonceInjective(d.iv, start + i, recvSeq);
      TamperedDeliversPrefix(c, d, r.recvSeq, r.stream, start, plains);
      assert plains[recvSeq - start..] == [plains[i]] + plains[recvSeq + 1 - start..];
    }
  }

  /** When a record is made, and its bytes: number, length of the ciphertext, ciphertext. */
  lemma RecordIs(c: Suite, d: Direction, seqNumber: nat, plain: Bytes)
    requires AeadCorrect(c)
    ensures Record(c, d, seqNumber, plain).Ok? <==> seqNumber < SEQ_LIMIT && |plain| + 16 < Pow256(4) && |d.iv| == 12
    ensures Record(c, d, seqNumber, plain).Ok? ==>
              seqNumber < Pow256(8) &&
              var header := BigEndian(seqNumber, 8) + BigEndian(|plain| + 16, 4);
              Record(c, d, seqNumber, plain).value == header + c.aeadSeal(d.key, XorIvWithSeq(d.iv, seqNumber).value, plain, header)
  {
    Pow256Values();
    hide XorIvWithSeq, BigEndian, Pow256;
  }

  lemma ReceiveNothing(c: Suite, d: Direction, recvSeq: nat)
    ensures Receive(c, d, recvSeq, []).result.Raise?
  {
  }

  /** A record whose header carries another number is never delivered, whatever the rest of it is. */
  lemma OtherNumberRejected(c: Suite, d: Direction, recvSeq: nat, stream: Bytes)
    requires |stream| >= HEADER_SIZE && FromBigEndian(stream[..8]) != recvSeq
    ensures Receive(c, d, recvSeq, stream) == Received(Raise(ValueError), recvSeq, stream[HEADER_SIZE..])
    ensures Delivered(c, d, recvSeq, stream) == []
  {
    assert stream[..HEADER_SIZE][..8] == stream[..8];
  }

  // ---------------------------------------------------------------------------------------------
  // Nonces of a sender
  // ---------------------------------------------------------------------------------------------

  /** One call of `SendRecord`: a plaintext, and whether the socket raises when it is reached. */
  datatype SendCall = SendCall(plain: Bytes, socketRaises: bool)

  /** The numbers sealed with by a list of calls that starts at `sendSeq`. */
  function SealedBy(c: Suite, d: Direction, sendSeq: nat, calls: seq<SendCall>): seq<nat>
    decreases |calls|
  {
    if calls == [] then []
    else if Record(c, d, sendSeq, calls[0].plain).Raise? then SealedBy(c, d, sendSeq, calls[1..])
    else [sendSeq] + SealedBy(c, d, if calls[0].socketRaises then sendSeq else sendSeq + 1, calls[1..])
  }

  lemma {:induction false} SealedBySnoc(c: Suite, d: Direction, sendSeq: nat, calls: seq<SendCall>, call: SendCall)
    ensures SealedBy(c, d, sendSeq, calls + [call]) == SealedBy(c, d, sendSeq, calls) + SealedBy(c, d, SeqAfter(c, d, sendSeq, calls), [call])
    ensures SeqAfter(c, d, sendSeq, calls + [call]) == SeqAfter(c, d, SeqAfter(c, d, sendSeq, calls), [call])
    decreases |calls|
  {
    hide Record;
    if calls == [] {
      assert [] + [call] == [call];
    } else {
      assert (calls + [call])[1..] == calls[1..] + [call];
      SealedBySnoc(c, d, sendSeq, calls[1..], call);
      SealedBySnoc(c, d, sendSeq + 1, calls[1..], call);
    }
  }

  /** The number that a list of calls leaves. */
  function SeqAfter(c: Suite, d: Direction, sendSeq: nat, calls: seq<SendCall>): nat
    decreases |calls|
  {
    if calls == [] then sendSeq
    else
      SeqAfter(c, d, if Record(c, d, sendSeq, calls[0].plain).Raise? || calls[0].socketRaises then sendSeq else sendSeq + 1, calls[1..])
  }

  /** What the record layer logs over any list of sends is what the calls seal, whichever of them the socket fails. */
  method SendAllRecords(layer: KEMTLSRecordLayer, plains: seq<Bytes>) returns (ghost calls: seq<SendCall>)
    requires AeadCorrect(layer.c)
    modifies layer`sendSeq, layer`sealed, layer.sock`sent, layer.sock`room
    ensures |calls| == |plains| && forall i | 0 <= i < |plains| :: calls[i].plain == plains[i]
    ensures layer.sealed == old(layer.sealed) + SealedBy(layer.c, layer.sender, old(layer.sendSeq), calls)
    ensures layer.sendSeq == SeqAfter(layer.c, layer.sender, old(layer.sendSeq), calls)
  {
    hide Record, AeadCorrect;
    calls := [];
    for i := 0 to |plains|
      invariant |calls| == i && forall k | 0 <= k < i :: calls[k].plain == plains[k]
      invariant layer.sealed == old(layer.sealed) + SealedBy(layer.c, layer.sender, old(layer.sendSeq), calls)
      invariant layer.sendSeq == SeqAfter(layer.c, layer.sender, old(layer.sendSeq), calls)
    {
      var sent := layer.SendRecord(plains[i]);
      ghost var call := SendCall(plains[i], sent.Raise?);
      SealedBySnoc(layer.c, layer.sender, old(layer.sendSeq), calls, call);
      calls := calls + [call];
    }
  }

  predicate DistinctNonces(d: Direction, numbers: seq<nat>) {
    forall i, j | 0 <= i < j < |numbers| :: XorIvWithSeq(d.iv, numbers[i]) != XorIvWithSeq(d.iv, numbers[j])
  }

  /** The call seals a record and then the socket raises. */
  predicate FailsAfterSealing(c: Suite, d: Direction, sendSeq: nat, call: SendCall) {
    Record(c, d, sendSeq, call.plain).Ok? && call.socketRaises
  }

  /** No call seals anything after a call that failed after sealing. */
  predicate NothingSealedAfterFailure(c: Suite, d: Direction, sendSeq: nat, calls: seq<SendCall>)
    decreases |calls|
  {
    if calls == [] then true
    else if FailsAfterSealing(c, d, sendSeq, calls[0]) then
      forall k | 1 <= k < |calls| :: Record(c, d, sendSeq, calls[k].plain).Raise?
    else
      NothingSealedAfterFailure(c, d, if Record(c, d, sendSeq, calls[0].plain).Raise? then sendSeq else sendSeq + 1, calls[1..])
  }

  lemma {:induction false} SealedBounds(c: Suite, d: Direction, sendSeq: nat, calls: seq<SendCall>)
    ensures forall n | n in SealedBy(c, d, sendSeq, calls) :: sendSeq <= n && XorIvWithSeq(d.iv, n).Ok?
    decreases |calls|
  {
    hide XorIvWithSeq, RecordHeader, FrameRecord;
    if calls != [] {
      SealedBounds(c, d, sendSeq, calls[1..]);
      SealedBounds(c, d, sendSeq + 1, calls[1..]);
    }
  }

  lemma {:induction false} NothingSealed(c: Suite, d: Direction, sendSeq: nat, calls: seq<SendCall>)
    ensures SealedBy(c, d, sendSeq, calls) == [] <==>
            forall k | 0 <= k < |calls| :: Record(c, d, sendSeq, calls[k].plain).Raise?
  {
    hide Record;
    if calls != [] {
      NothingSealed(c, d, sendSeq, calls[1..]);
      if Record(c, d, sendSeq, calls[0].plain).Raise? && SealedBy(c, d, sendSeq, calls[1..]) == [] {
        forall k | 0 <= k < |calls| ensures Record(c, d, sendSeq, calls[k].plain).Raise? {
          if k > 0 {
            assert calls[1..][k - 1] == calls[k];
          }
        }
      }
    }
  }

  /** What is sealed first after a failure is sealed with the number of the failure. */
  lemma {:induction false} FirstSealed(c: Suite, d: Direction, sendSeq: nat, calls: seq<SendCall>)
    requires SealedBy(c, d, sendSeq, calls) != []
    ensures SealedBy(c, d, sendSeq, calls)[0] == sendSeq
  {
    hide Record;
    if Record(c, d, sendSeq, calls[0].plain).Raise? {
      FirstSealed(c, d, sendSeq, calls[1..]);
    }
  }

  /**
    The nonces used under one write key are pairwise distinct exactly when nothing is sealed after
    a call whose socket write raised: such a call leaves the number unstepped, so the next record
    would reuse its nonce.
  */
  lemma {:induction false} NoncesDistinctIff(c: Suite, d: Direction, sendSeq: nat, calls: seq<SendCall>)
    ensures DistinctNonces(d, SealedBy(c, d, sendSeq, calls)) <==> NothingSealedAfterFailure(c, d, sendSeq, calls)
    decreases |calls|
  {
    hide Record, XorIvWithSeq;
    if calls != [] {
      var tail := calls[1..];
      if Record(c, d, sendSeq, calls[0].plain).Raise? {
        NoncesDistinctIff(c, d, sendSeq, tail);
      } else if calls[0].socketRaises {
        var rest := SealedBy(c, d, sendSeq, tail);
        NothingSealed(c, d, sendSeq, tail);
        assert forall k | 1 <= k < |calls| :: calls[k] == tail[k - 1];
        assert forall k | 0 <= k < |tail| :: tail[k] == calls[k + 1];
        if rest != [] {
          FirstSealed(c, d, sendSeq, tail);
          var all := [sendSeq] + rest;
          assert all[0] == all[1];
        }
      } else {
        var rest := SealedBy(c, d, sendSeq + 1, tail);
        NoncesDistinctIff(c, d, sendSeq + 1, tail);
        SealedBounds(c, d, sendSeq + 1, tail);
        DistinctCons(c, d, sendSeq, calls[0].plain, rest);
      }
    }
  }

  lemma DistinctCons(c: Suite, d: Direction, n: nat, plain: Bytes, rest: seq<nat>)
    requires Record(c, d, n, plain).Ok?
    requires forall m | m in rest :: n < m && XorIvWithSeq(d.iv, m).Ok?
    ensures DistinctNonces(d, [n] + rest) <==> DistinctNonces(d, rest)
  {
    var all := [n] + rest;
    assert XorIvWithSeq(d.iv, n).Ok?;
    hide XorIvWithSeq, Record;
    forall j | 0 <= j < |rest| ensures XorIvWithSeq(d.iv, n) != XorIvWithSeq(d.iv, rest[j]) {
      if XorIvWithSeq(d.iv, n) == XorIvWithSeq(d.iv, rest[j]) {
        NonceInjective(d.iv, n, rest[j]);
      }
    }
    if DistinctNonces(d, all) {
      forall i, j | 0 <= i < j < |rest| ensures XorIvWithSeq(d.iv, rest[i]) != XorIvWithSeq(d.iv, rest[j]) {
        assert all[i + 1] == rest[i] && all[j + 1] == rest[j];
      }
    }
  }
}
