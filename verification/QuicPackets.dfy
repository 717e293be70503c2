/** The packet codec: a 16-byte header, the connection id and the payload. */
module QuicPackets {
  import opened Wrappers
  import opened ByteStrings

  const PACKET_VERSION := 1
  const HEADER_SIZE := 16

  const INITIAL := 0
  const HANDSHAKE := 1
  const APP_DATA := 2
  const ACK := 3
  const CONNECTION_CLOSE := 4

  datatype Packet = Packet(packetType: int, connectionId: Bytes, packetNumber: int, payload: Bytes, epoch: int, version: int)

  predicate ValidHeader(packetType: int, connectionId: Bytes, packetNumber: int, epoch: int, payloadLength: int, version: int) {
    0 <= packetType <= 4 && 1 <= |connectionId| <= 255 && 0 <= packetNumber < Pow256(8) && 0 <= epoch <= 255 &&
    0 <= payloadLength < Pow256(4) && version == PACKET_VERSION
  }

  function EncodeHeader(packetType: int, connectionId: Bytes, packetNumber: int, epoch: int, payloadLength: int, version: int)
    : (r: Result<Bytes>)
    ensures r.Ok? <==> ValidHeader(packetType, connectionId, packetNumber, epoch, payloadLength, version)
  {
    if !ValidHeader(packetType, connectionId, packetNumber, epoch, payloadLength, version) then Raise(ValueError)
    else
      Ok([version, packetType, epoch, |connectionId|] + BigEndian(packetNumber, 8) + BigEndian(payloadLength, 4) + connectionId)
  }

  function EncodePacket(p: Packet): Result<Bytes> {
    var header :- EncodeHeader(p.packetType, p.connectionId, p.packetNumber, p.epoch, |p.payload|, p.version);
    Ok(header + p.payload)
  }

  function DecodePacket(data: Bytes): (r: Result<Packet>)
    ensures r.Ok? ==> |data| == HEADER_SIZE + |r.value.connectionId| + |r.value.payload|
  {
    if |data| < HEADER_SIZE then Raise(ValueError)
    else
      var version, packetType, epoch, idLength := data[0], data[1], data[2], data[3];
      var packetNumber, payloadLength := FromBigEndian(data[4..12]), FromBigEndian(data[12..16]);
      if version != PACKET_VERSION || packetType > 4 then Raise(ValueError)
      else
        var headerLength := HEADER_SIZE + idLength;
        if |data| != headerLength + payloadLength then Raise(ValueError)
        else if idLength == 0 then Raise(ValueError)
        else
          Ok(Packet(packetType, data[HEADER_SIZE..headerLength], packetNumber, data[headerLength..], epoch, version))
  }

  /** Decoding undoes encoding, for every packet that can be encoded. */
  lemma DecodeOfEncode(p: Packet)
    requires EncodePacket(p).Ok?
    ensures DecodePacket(EncodePacket(p).value) == Ok(p)
  {
    var data := EncodePacket(p).value;
    var number, length := BigEndian(p.packetNumber, 8), BigEndian(|p.payload|, 4);
    FromBigEndianOfBigEndian(p.packetNumber, 8);
    FromBigEndianOfBigEndian(|p.payload|, 4);
    assert data[4..12] == number;
    assert data[12..16] == length;
    assert data[HEADER_SIZE..HEADER_SIZE + |p.connectionId|] == p.connectionId;
    assert data[HEADER_SIZE + |p.connectionId|..] == p.payload;
  }

  /** Encoding undoes decoding, for every datagram that is accepted: the two are exact inverses. */
  lemma EncodeOfDecode(data: Bytes)
    requires DecodePacket(data).Ok?
    ensures EncodePacket(DecodePacket(data).value) == Ok(data)
  {
    var p := DecodePacket(data).value;
    BigEndianOfFromBigEndian(data[4..12]);
    BigEndianOfFromBigEndian(data[12..16]);
    assert data[4..12] == BigEndian(p.packetNumber, 8);
    assert data[12..16] == BigEndian(|p.payload|, 4);
    assert data[..4] == [p.version, p.packetType, p.epoch, |p.connectionId|];
    assert data == data[..4] + data[4..12] + data[12..16] + data[16..16 + data[3]] + data[16 + data[3]..];
  }

  /** Which datagrams are accepted, and where each field is. */
  lemma AcceptedIff(data: Bytes)
    ensures DecodePacket(data).Ok? <==>
            |data| >= 16 && data[0] == 1 && data[1] <= 4 && data[3] >= 1 && |data| == 16 + data[3] + FromBigEndian(data[12..16])
    ensures DecodePacket(data).Ok? ==>
              var p := DecodePacket(data).value;
              p.version == 1 && p.packetType == data[1] && p.epoch == data[2] && p.packetNumber == FromBigEndian(data[4..12]) &&
              p.connectionId == data[16..16 + data[3]] && p.payload == data[16 + data[3]..]
  {
    hide FromBigEndian;
  }

  /** The associated data determines the number and the epoch. */
  lemma HeaderDetermines(id: Bytes, m: int, n: int, epochM: int, epochN: int)
    requires EncodeHeader(APP_DATA, id, m, epochM, 0, PACKET_VERSION).Ok?
    requires EncodeHeader(APP_DATA, id, m, epochM, 0, PACKET_VERSION) == EncodeHeader(APP_DATA, id, n, epochN, 0, PACKET_VERSION)
    ensures m == n && epochM == epochN
  {
    var h := EncodeHeader(APP_DATA, id, m, epochM, 0, PACKET_VERSION).value;
    assert h[2] == epochM == epochN;
    assert h[4..12] == BigEndian(m, 8);
    assert h[4..12] == BigEndian(n, 8);
    BigEndianInjective(m, n, 8);
  }

  /** Associated data of an application packet: its header with a payload length of zero. */
  lemma HeaderDeterminesNumber(id: Bytes, m: int, n: int, epoch: int)
    requires EncodeHeader(APP_DATA, id, m, epoch, 0, PACKET_VERSION).Ok?
    requires EncodeHeader(APP_DATA, id, m, epoch, 0, PACKET_VERSION) == EncodeHeader(APP_DATA, id, n, epoch, 0, PACKET_VERSION)
    ensures m == n
  {
    HeaderDetermines(id, m, n, epoch, epoch);
  }
}
