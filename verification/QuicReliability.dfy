/**
  Packet numbers, acknowledgements and retransmission tables of the two datagram endpoints. The
  ghost field `log` records, in order, every datagram put on the wire and every number settled.
*/
module QuicReliability {
  import opened Wrappers
  import opened ByteStrings
  import opened Primitives
  import opened Nonces
  import opened QuicPackets
  import RecordLayer

  const MAX_RETRIES := 4
  const SERVER_RETRY_TIMEOUT: real := 0.25
  const HANDSHAKE_RETRY_TIMEOUT: real := 0.35
  const APP_RETRY_TIMEOUT: real := 0.25

  datatype RetransmissionEntry = RetransmissionEntry(deadline: real, attempts: nat)

  class QUICConnectionState {
    const connectionId: Bytes
    var sendPacketNumber: nat
    var recvPacketNumber: int
    var ackedPackets: set<nat>
    var receivedPackets: set<nat>
    var pendingAcks: set<nat>
    var retransmissions: map<nat, RetransmissionEntry>
    var closed: bool

    constructor (connectionId: Bytes)
      ensures this.connectionId == connectionId
      ensures sendPacketNumber == 0 && recvPacketNumber == -1 && retransmissions == map[] && !closed
      ensures ackedPackets == receivedPackets == pendingAcks == {}
    {
      this.connectionId := connectionId;
      sendPacketNumber := 0;
      recvPacketNumber := -1;
      ackedPackets := {};
      receivedPackets := {};
      pendingAcks := {};
      retransmissions := map[];
      closed := false;
    }

    method NextPacketNumber() returns (n: nat)
      modifies `sendPacketNumber
      ensures n == old(sendPacketNumber) && sendPacketNumber == n + 1
    {
      n := sendPacketNumber;
      sendPacketNumber := sendPacketNumber + 1;
    }

    /** The largest number seen so far is kept. */
    method NoteReceivedPacket(n: nat)
      modifies `receivedPackets, `pendingAcks, `recvPacketNumber
      ensures receivedPackets == old(receivedPackets) + {n} && pendingAcks == old(pendingAcks) + {n}
      ensures recvPacketNumber >= n && recvPacketNumber >= old(recvPacketNumber)
      ensures recvPacketNumber == n || recvPacketNumber == old(recvPacketNumber)
    {
      receivedPackets := receivedPackets + {n};
      pendingAcks := pendingAcks + {n};
      if n > recvPacketNumber {
        recvPacketNumber := n;
      }
    }

    /** Tells whether this is the first acknowledgement of the number. */
    method AcknowledgePacket(n: nat) returns (first: bool)
      modifies `retransmissions, `ackedPackets
      ensures retransmissions == old(retransmissions) - {n} && ackedPackets == old(ackedPackets) + {n}
      ensures first <==> n !in old(ackedPackets)
    {
      retransmissions := retransmissions - {n};
      first := n !in ackedPackets;
      ackedPackets := ackedPackets + {n};
    }

    /** Scheduling again counts as one more attempt. */
    method ScheduleRetransmission(n: nat, deadline: real)
      modifies `retransmissions
      ensures retransmissions == old(retransmissions)[n :=
                RetransmissionEntry(deadline, if n in old(retransmissions) then old(retransmissions)[n].attempts + 1 else 0)]
    {
      var attempts := if n in retransmissions then retransmissions[n].attempts + 1 else 0;
      retransmissions := retransmissions[n := RetransmissionEntry(deadline, attempts)];
    }

    function ExpiredRetransmissions(now: real): (r: set<nat>)
      reads this
      ensures forall n :: n in r <==> n in retransmissions && retransmissions[n].deadline <= now
    {
      set n | n in retransmissions && retransmissions[n].deadline <= now
    }

    method MarkClosed()
      modifies `closed
      ensures closed
    {
      closed := true;
    }
  }

  /** Packet protection, the header as associated data, and encoding, for one allotted number. */
  function BuildPacket(c: Suite, protector: Option<RecordLayer.Direction>, packetType: int, connectionId: Bytes,
                       number: nat, payload: Bytes, epoch: int): Result<Bytes>
  {
    var sealedPayload :-
      if packetType == APP_DATA then SealPacket(c, protector, connectionId, number, payload, epoch) else Ok(payload);
    EncodePacket(Packet(packetType, connectionId, number, sealedPayload, epoch, PACKET_VERSION))
  }

  function SealPacket(c: Suite, protector: Option<RecordLayer.Direction>, connectionId: Bytes, number: nat,
                      payload: Bytes, epoch: int): Result<Bytes>
  {
    if protector.None? then Raise(ValueError)
    else
      var aad :- EncodeHeader(APP_DATA, connectionId, number, epoch, 0, PACKET_VERSION);
      RecordLayer.Protect(c, protector.value, number, payload, aad)
  }

  /** Numbers sealed with, in order, are strictly increasing. */
  predicate Increasing(numbers: seq<nat>) {
    forall i, j | 0 <= i < j < |numbers| :: numbers[i] < numbers[j]
  }

  /** Strictly increasing numbers below the limit give pairwise distinct nonces. */
  lemma IncreasingNoncesDistinct(d: RecordLayer.Direction, numbers: seq<nat>)
    requires Increasing(numbers) && forall i | 0 <= i < |numbers| :: XorIvWithSeq(d.iv, numbers[i]).Ok?
    ensures RecordLayer.DistinctNonces(d, numbers)
  {
    hide XorIvWithSeq;
    forall i, j | 0 <= i < j < |numbers| ensures XorIvWithSeq(d.iv, numbers[i]) != XorIvWithSeq(d.iv, numbers[j]) {
      if XorIvWithSeq(d.iv, numbers[i]) == XorIvWithSeq(d.iv, numbers[j]) {
        NonceInjective(d.iv, numbers[i], numbers[j]);
      }
    }
  }

  lemma SealedHasNonce(c: Suite, protector: Option<RecordLayer.Direction>, connectionId: Bytes, number: nat,
                       payload: Bytes, epoch: int)
    requires SealPacket(c, protector, connectionId, number, payload, epoch).Ok?
    ensures protector.Some? && XorIvWithSeq(protector.value.iv, number).Ok?
  {
    hide XorIvWithSeq;
  }

  // ---------------------------------------------------------------------------------------------
  // What an endpoint puts on the wire
  // ---------------------------------------------------------------------------------------------

  /** A datagram is sent, or the acknowledgement of (or reply to) an allotted number is processed. */
  datatype Event = Sent(number: nat, bytes: Bytes) | Settled(number: nat)

  /** How often a number was put on the wire. */
  function Sends(log: seq<Event>, n: nat): nat {
    if log == [] then 0
    else Sends(log[..|log| - 1], n) + (if log[|log| - 1].Sent? && log[|log| - 1].number == n then 1 else 0)
  }

  lemma SendsAppend(log: seq<Event>, e: Event, n: nat)
    ensures Sends(log + [e], n) == Sends(log, n) + (if e.Sent? && e.number == n then 1 else 0)
  {
    assert (log + [e])[..|log|] == log;
  }

  /** A sent packet as the server keeps it, and as the client does. */
  datatype StoredPacket =
    | ServerPacket(bytes: Bytes, deadline: real, attempts: nat)
    | ClientPacket(bytes: Bytes, deadline: real, attempts: nat, timeout: real)

  /** Whole-run safety of one sender: at most five sends, the same bytes each time, none after settling. */
  ghost predicate WireSafe(log: seq<Event>) {
    (forall n: nat :: Sends(log, n) <= 1 + MAX_RETRIES) &&
    (forall i, j | 0 <= i < j < |log| && log[i].number == log[j].number && log[j].Sent? ::
       log[i].Sent? && log[i].bytes == log[j].bytes)
  }

  /** A stored packet was sent with the stored bytes, once and once more for every attempt. */
  ghost predicate StoredSafe(log: seq<Event>, stored: map<nat, StoredPacket>) {
    forall n | n in stored ::
      stored[n].attempts <= MAX_RETRIES && Sends(log, n) == 1 + stored[n].attempts &&
      forall i | 0 <= i < |log| && log[i].number == n :: log[i] == Sent(n, stored[n].bytes)
  }

  ghost predicate SenderSafe(log: seq<Event>, stored: map<nat, StoredPacket>, next: nat) {
    WireSafe(log) && StoredSafe(log, stored) &&
    (forall n | n in stored :: n < next) && (forall i | 0 <= i < |log| :: log[i].number < next)
  }

  lemma {:induction false} NeverSent(log: seq<Event>, n: nat)
    requires forall i | 0 <= i < |log| :: log[i].number != n
    ensures Sends(log, n) == 0
  {
    if log != [] {
      NeverSent(log[..|log| - 1], n);
    }
  }

  /** Allotting a number keeps the sender safe. */
  lemma AllotKeepsSafe(log: seq<Event>, stored: map<nat, StoredPacket>, sealed: seq<nat>,
                       protector: Option<RecordLayer.Direction>, next: nat)
    requires SenderSafe(log, stored, next) && SealedSafe(sealed, protector, next)
    ensures SenderSafe(log, stored, next + 1) && SealedSafe(sealed, protector, next + 1)
  {
    hide XorIvWithSeq, WireSafe, StoredSafe;
    forall i | 0 <= i < |sealed|
      ensures sealed[i] < next + 1 && HasNonce(protector, sealed[i])
    {
    }
  }

  /** So does the first send of a number just allotted, stored or not. */
  lemma FirstSendKeepsSafe(log: seq<Event>, stored: map<nat, StoredPacket>, next: nat, p: StoredPacket, reliable: bool)
    requires SenderSafe(log, stored, next) && p.attempts == 0
    ensures next !in stored
    ensures SenderSafe(log + [Sent(next, p.bytes)], if reliable then stored[next := p] else stored, next + 1)
  {
    var e := Sent(next, p.bytes);
    var log' := log + [e];
    NeverSent(log, next);
    forall n: nat ensures Sends(log', n) == Sends(log, n) + (if n == next then 1 else 0) {
      SendsAppend(log, e, n);
    }
    hide Sends;
    assert WireSafe(log');
    forall n | n in stored
      ensures forall i | 0 <= i < |log'| && log'[i].number == n :: log'[i] == Sent(n, stored[n].bytes)
    {
    }
    assert StoredSafe(log', stored);
  }

  /** So does sending a stored packet again with its stored bytes, below the budget. */
  lemma ResendKeepsSafe(log: seq<Event>, stored: map<nat, StoredPacket>, next: nat, n: nat, p: StoredPacket)
    requires SenderSafe(log, stored, next) && n in stored && stored[n].attempts < MAX_RETRIES
    requires p.bytes == stored[n].bytes && p.attempts == stored[n].attempts + 1
    ensures SenderSafe(log + [Sent(n, p.bytes)], stored[n := p], next)
  {
    var e := Sent(n, p.bytes);
    forall m: nat ensures Sends(log + [e], m) == Sends(log, m) + (if m == n then 1 else 0) {
      SendsAppend(log, e, m);
    }
  }

  /** So does dropping a number from the table when it is settled. */
  lemma SettleKeepsSafe(log: seq<Event>, stored: map<nat, StoredPacket>, next: nat, n: nat)
    requires SenderSafe(log, stored, next)
    ensures SenderSafe(Settle(log, next, n), stored - {n}, next)
  {
    var e := Settled(n);
    forall m: nat ensures Sends(log + [e], m) == Sends(log, m) {
      SendsAppend(log, e, m);
    }
  }

  /** The log once the acknowledgement of n is processed; one of a number not yet allotted settles nothing. */
  function Settle(log: seq<Event>, next: nat, n: nat): seq<Event> {
    if n < next then log + [Settled(n)] else log
  }

  /** The log once a set of stored packets has been sent again, in some order. */
  ghost predicate Resent(log: seq<Event>, log': seq<Event>, due: set<nat>, stored: map<nat, StoredPacket>)
    requires due <= stored.Keys
  {
    log <= log' && |log'| == |log| + |due| &&
    forall n | n in due :: Sent(n, stored[n].bytes) in log'[|log|..]
  }

  lemma ResentOneMore(log: seq<Event>, log': seq<Event>, done: set<nat>, stored: map<nat, StoredPacket>, n: nat)
    requires done <= stored.Keys && n in stored && n !in done && Resent(log, log', done, stored)
    ensures Resent(log, log' + [Sent(n, stored[n].bytes)], done + {n}, stored)
  {
    var log2 := log' + [Sent(n, stored[n].bytes)];
    assert log2[|log|..] == log'[|log|..] + [Sent(n, stored[n].bytes)];
  }

  predicate MayRetry(stored: map<nat, StoredPacket>, n: nat) {
    n in stored && stored[n].attempts < MAX_RETRIES
  }

  /** The expired entries that may still be sent again. */
  function Due(retransmissions: map<nat, RetransmissionEntry>, stored: map<nat, StoredPacket>, now: real): (r: set<nat>)
    ensures r <= stored.Keys
  {
    set n | n in retransmissions && retransmissions[n].deadline <= now && MayRetry(stored, n)
  }

  /** A stored packet after one more send at this time. */
  function Retry(p: StoredPacket, now: real): StoredPacket {
    match p
    case ServerPacket(bytes, _, attempts) => ServerPacket(bytes, now + SERVER_RETRY_TIMEOUT, attempts + 1)
    case ClientPacket(bytes, _, attempts, timeout) => ClientPacket(bytes, now + timeout, attempts + 1, timeout)
  }

  function Retried(stored: map<nat, StoredPacket>, due: set<nat>, now: real): map<nat, StoredPacket> {
    map n | n in stored :: if n in due then Retry(stored[n], now) else stored[n]
  }

  /** What has been done of a retransmission pass when these expired numbers are still to be looked at. */
  ghost predicate Progress(log0: seq<Event>, log: seq<Event>, stored0: map<nat, StoredPacket>, stored: map<nat, StoredPacket>,
                           due: set<nat>, expired: set<nat>, now: real)
    requires due <= stored0.Keys
  {
    Resent(log0, log, due - expired, stored0) && stored == Retried(stored0, due - expired, now) &&
    forall n | n in expired :: n in due <==> MayRetry(stored0, n)
  }

  lemma NoneRetried(log: seq<Event>, stored: map<nat, StoredPacket>, due: set<nat>, expired: set<nat>, now: real)
    requires due <= stored.Keys && due <= expired && forall n | n in expired :: n in due <==> MayRetry(stored, n)
    ensures Progress(log, log, stored, stored, due, expired, now)
  {
    assert due - expired == {};
    assert stored == Retried(stored, {}, now);
  }

  lemma OneMoreRetried(log0: seq<Event>, log: seq<Event>, stored0: map<nat, StoredPacket>, stored: map<nat, StoredPacket>,
                       due: set<nat>, expired: set<nat>, n: nat, now: real)
    requires due <= stored0.Keys && n in expired && Progress(log0, log, stored0, stored, due, expired, now)
    ensures MayRetry(stored, n) ==>
              Progress(log0, log + [Sent(n, stored[n].bytes)], stored0, stored[n := Retry(stored[n], now)], due, expired - {n}, now)
    ensures !MayRetry(stored, n) ==> Progress(log0, log, stored0, stored, due, expired - {n}, now)
  {
    var done, done' := due - expired, due - (expired - {n});
    if n in due {
      assert done' == done + {n};
      ResentOneMore(log0, log, done, stored0, n);
      assert stored[n := Retry(stored[n], now)] == Retried(stored0, done', now);
    } else {
      assert done' == done;
    }
  }

  lemma AllRetried(log0: seq<Event>, log: seq<Event>, stored0: map<nat, StoredPacket>, stored: map<nat, StoredPacket>,
                   due: set<nat>, now: real)
    requires due <= stored0.Keys && Progress(log0, log, stored0, stored, due, {}, now)
    ensures Resent(log0, log, due, stored0) && stored == Retried(stored0, due, now)
  {
    assert due - {} == due;
  }

  predicate HasNonce(protector: Option<RecordLayer.Direction>, n: nat) {
    protector.Some? && XorIvWithSeq(protector.value.iv, n).Ok?
  }

  /** Keys with which a sender seals: increasing numbers, each with a nonce. */
  ghost predicate SealedSafe(sealed: seq<nat>, protector: Option<RecordLayer.Direction>, next: nat) {
    Increasing(sealed) &&
    forall i | 0 <= i < |sealed| :: sealed[i] < next && HasNonce(protector, sealed[i])
  }

  lemma SealKeepsSafe(sealed: seq<nat>, d: RecordLayer.Direction, next: nat)
    requires SealedSafe(sealed, Some(d), next) && XorIvWithSeq(d.iv, next).Ok?
    ensures SealedSafe(sealed + [next], Some(d), next + 1)
  {
    hide XorIvWithSeq;
  }

  /** Hence no nonce is used twice under the write key. */
  lemma SealedNoncesDistinct(sealed: seq<nat>, protector: Option<RecordLayer.Direction>, next: nat)
    requires SealedSafe(sealed, protector, next) && protector.Some?
    ensures RecordLayer.DistinctNonces(protector.value, sealed)
  {
    hide XorIvWithSeq;
    IncreasingNoncesDistinct(protector.value, sealed);
  }

  /** A fixed-size number as bytes, the payload of an acknowledgement. */
  function AckPayload(n: nat): Bytes
    requires n < Pow256(8)
  {
    BigEndian(n, 8)
  }

  // ---------------------------------------------------------------------------------------------
  // Server
  // ---------------------------------------------------------------------------------------------

  /** The sending side of one server connection. */
  class ServerSender {
    const c: Suite
    const state: QUICConnectionState
    var protector: Option<RecordLayer.Direction>
    var sentPackets: map<nat, StoredPacket>
    ghost var log: seq<Event>
    /** Numbers with which the write key has sealed, in order. */
    ghost var sealed: seq<nat>

    /** The two tables hold the same numbers, deadlines and attempts. */
    ghost predicate TablesAgree()
      reads this, state
    {
      sentPackets.Keys == state.retransmissions.Keys &&
      forall n | n in sentPackets ::
        sentPackets[n].ServerPacket? &&
        state.retransmissions[n] == RetransmissionEntry(sentPackets[n].deadline, sentPackets[n].attempts)
    }

    ghost predicate Valid()
      reads this, state
    {
      TablesAgree() && SenderSafe(log, sentPackets, state.sendPacketNumber) &&
      SealedSafe(sealed, protector, state.sendPacketNumber)
    }

    constructor (c: Suite, connectionId: Bytes)
      ensures Valid() && this.c == c && fresh(state) && state.connectionId == connectionId && log == []
    {
      this.c := c;
      state := new QUICConnectionState(connectionId);
      protector := None;
      sentPackets := map[];
      log := [];
      sealed := [];
    }

    /** The write key is set once, when the handshake completes. */
    method SetProtector(d: RecordLayer.Direction)
      requires Valid() && protector.None?
      modifies `protector
      ensures Valid() && protector == Some(d)
    {
      protector := Some(d);
    }

    /** A number is allotted before anything can raise; only a packet that was sent is stored. */
    method SendPacket(packetType: int, payload: Bytes, epoch: int, reliable: bool, now: real, socketRaises: bool) returns (r: Result<nat>)
      requires Valid()
      modifies this, state
      ensures Valid() && protector == old(protector)
      ensures state.sendPacketNumber == old(state.sendPacketNumber) + 1
      ensures r.Ok? <==>
              BuildPacket(c, protector, packetType, state.connectionId, old(state.sendPacketNumber), payload, epoch).Ok? && !socketRaises
      ensures r.Ok? ==> r.value == old(state.sendPacketNumber) &&
                        var built := BuildPacket(c, protector, packetType, state.connectionId, r.value, payload, epoch);
                        built.Ok? && log == old(log) + [Sent(r.value, built.value)] &&
                        sentPackets == if reliable
                                       then old(sentPackets)[r.value := ServerPacket(built.value, now + SERVER_RETRY_TIMEOUT, 0)]
                                       else old(sentPackets)
      ensures r.Raise? ==> log == old(log) && sentPackets == old(sentPackets)
    {
      hide EncodePacket, SealPacket, XorIvWithSeq, SenderSafe, WireSafe, StoredSafe, SealedSafe;
      AllotKeepsSafe(log, sentPackets, sealed, protector, state.sendPacketNumber);
      var n := state.NextPacketNumber();
      var bytes := payload;
      if packetType == APP_DATA {
        var sealedPayload := SealPacket(c, protector, state.connectionId, n, payload, epoch);
        if sealedPayload.Raise? {
          return Raise(sealedPayload.exception);
        }
        SealedHasNonce(c, protector, state.connectionId, n, payload, epoch);
        SealKeepsSafe(sealed, protector.value, n);
        sealed := sealed + [n];
        bytes := sealedPayload.value;
      }
      var encoded := EncodePacket(Packet(packetType, state.connectionId, n, bytes, epoch, PACKET_VERSION));
      if encoded.Raise? {
        return Raise(encoded.exception);
      }
      if socketRaises {
        return Raise(ValueError);
      }
      var deadline := now + SERVER_RETRY_TIMEOUT;
      var stored := ServerPacket(encoded.value, deadline, 0);
      FirstSendKeepsSafe(log, sentPackets, n, stored, reliable);
      log := log + [Sent(n, encoded.value)];
      if reliable {
        state.ScheduleRetransmission(n, deadline);
        sentPackets := sentPackets[n := stored];
      }
      r := Ok(n);
    }

    /** An acknowledgement takes a number of its own and is never stored. */
    method SendAck(number: nat, epoch: int) returns (r: Result<()>)
      requires Valid() && number < Pow256(8)
      modifies this, state
      ensures Valid() && protector == old(protector) && sentPackets == old(sentPackets) && sealed == old(sealed)
      ensures state.sendPacketNumber == old(state.sendPacketNumber) + 1
      ensures var built := BuildPacket(c, None, ACK, state.connectionId, old(state.sendPacketNumber), AckPayload(number), epoch);
              r.Ok? == built.Ok? && log == if built.Ok? then old(log) + [Sent(old(state.sendPacketNumber), built.value)] else old(log)
    {
      hide EncodePacket, SealPacket, XorIvWithSeq, SenderSafe, WireSafe, StoredSafe, SealedSafe;
      var payload := AckPayload(number);
      AllotKeepsSafe(log, sentPackets, sealed, protector, state.sendPacketNumber);
      var n := state.NextPacketNumber();
      var encoded := EncodePacket(Packet(ACK, state.connectionId, n, payload, epoch, PACKET_VERSION));
      if encoded.Raise? {
        return Raise(encoded.exception);
      }
      FirstSendKeepsSafe(log, sentPackets, n, ServerPacket(encoded.value, 0.0, 0), false);
      log := log + [Sent(n, encoded.value)];
      r := Ok(());
    }

    /** Both tables drop the number; a payload that is not 8 bytes long is ignored. */
    method ProcessAck(payload: Bytes)
      requires Valid()
      modifies this, state
      ensures Valid() && sealed == old(sealed) && protector == old(protector)
      ensures state.sendPacketNumber == old(state.sendPacketNumber)
      ensures |payload| != 8 ==> sentPackets == old(sentPackets) && log == old(log)
      ensures |payload| == 8 ==> var n := FromBigEndian(payload);
                                 sentPackets == old(sentPackets) - {n} && n in state.ackedPackets &&
                                 log == Settle(old(log), state.sendPacketNumber, n)
    {
      hide FromBigEndian, XorIvWithSeq, SenderSafe, WireSafe, StoredSafe, SealedSafe;
      if |payload| != 8 {
        return;
      }
      var n := FromBigEndian(payload);
      SettleKeepsSafe(log, sentPackets, state.sendPacketNumber, n);
      log := Settle(log, state.sendPacketNumber, n);
      var first := state.AcknowledgePacket(n);
      sentPackets := sentPackets - {n};
    }

    /** One due packet is sent again and rescheduled in both tables. */
    method Resend(n: nat, now: real)
      requires Valid() && n in sentPackets && sentPackets[n].attempts < MAX_RETRIES
      modifies this`sentPackets, this`log, state`retransmissions
      ensures Valid()
      ensures sentPackets == old(sentPackets)[n := Retry(old(sentPackets)[n], now)]
      ensures log == old(log) + [Sent(n, old(sentPackets)[n].bytes)]
    {
      hide XorIvWithSeq, SenderSafe, WireSafe, StoredSafe, SealedSafe;
      var deadline := now + SERVER_RETRY_TIMEOUT;
      var p := ServerPacket(sentPackets[n].bytes, deadline, sentPackets[n].attempts + 1);
      ResendKeepsSafe(log, sentPackets, state.sendPacketNumber, n, p);
      log := log + [Sent(n, p.bytes)];
      sentPackets := sentPackets[n := p];
      state.ScheduleRetransmission(n, deadline);
    }

    /** Every due packet is sent once more, with the bytes it was first sent with; nothing else is. */
    method RetransmitExpired(now: real)
      requires Valid()
      modifies this`sentPackets, this`log, state`retransmissions
      ensures Valid()
      ensures Resent(old(log), log, old(Due(state.retransmissions, sentPackets, now)), old(sentPackets))
      ensures sentPackets == Retried(old(sentPackets), old(Due(state.retransmissions, sentPackets, now)), now)
    {
      hide XorIvWithSeq, SenderSafe, WireSafe, StoredSafe, SealedSafe;
      var expired := state.ExpiredRetransmissions(now);
      ghost var due, stored, log0 := Due(state.retransmissions, sentPackets, now), sentPackets, log;
      NoneRetried(log0, stored, due, expired, now);
      hide Progress, Due, Valid, MayRetry, QUICConnectionState.ExpiredRetransmissions;
      while expired != {}
        invariant Valid()
        invariant Progress(log0, log, stored, sentPackets, due, expired, now)
        decreases |expired|
      {
        var n: nat :| n in expired;
        OneMoreRetried(log0, log, stored, sentPackets, due, expired, n, now);
        if MayRetry(sentPackets, n) {
          Resend(n, now);
        }
        expired := expired - {n};
      }
      AllRetried(log0, log, stored, sentPackets, due, now);
    }
  }

  // ---------------------------------------------------------------------------------------------
  // Client
  // ---------------------------------------------------------------------------------------------

  function RetryTimeout(packetType: int): real {
    if packetType == APP_DATA then APP_RETRY_TIMEOUT else HANDSHAKE_RETRY_TIMEOUT
  }

  datatype RetryOutcome = AlreadySettled | SentAgain | Exhausted

  /** The sending side of the client. */
  class ClientSender {
    const c: Suite
    const state: QUICConnectionState
    var protector: Option<RecordLayer.Direction>
    var pendingPackets: map<nat, StoredPacket>
    ghost var log: seq<Event>
    ghost var sealed: seq<nat>

    /** The two tables hold the same numbers; deadlines and attempts may differ on the client. */
    ghost predicate Valid()
      reads this, state
    {
      pendingPackets.Keys == state.retransmissions.Keys &&
      (forall n | n in pendingPackets :: pendingPackets[n].ClientPacket?) &&
      SenderSafe(log, pendingPackets, state.sendPacketNumber) &&
      SealedSafe(sealed, protector, state.sendPacketNumber)
    }

    constructor (c: Suite, connectionId: Bytes)
      ensures Valid() && this.c == c && fresh(state) && state.connectionId == connectionId && log == []
    {
      this.c := c;
      state := new QUICConnectionState(connectionId);
      protector := None;
      pendingPackets := map[];
      log := [];
      sealed := [];
    }

    method SetProtector(d: RecordLayer.Direction)
      requires Valid() && protector.None?
      modifies `protector
      ensures Valid() && protector == Some(d)
    {
      protector := Some(d);
    }

    method SendPacket(packetType: int, payload: Bytes, epoch: int, reliable: bool, now: real, socketRaises: bool) returns (r: Result<nat>)
      requires Valid()
      modifies this, state
      ensures Valid() && protector == old(protector)
      ensures state.sendPacketNumber == old(state.sendPacketNumber) + 1
      ensures r.Ok? <==>
              BuildPacket(c, protector, packetType, state.connectionId, old(state.sendPacketNumber), payload, epoch).Ok? && !socketRaises
      ensures r.Ok? ==> r.value == old(state.sendPacketNumber) &&
                        var built := BuildPacket(c, protector, packetType, state.connectionId, r.value, payload, epoch);
                        var timeout := RetryTimeout(packetType);
                        built.Ok? && log == old(log) + [Sent(r.value, built.value)] &&
                        pendingPackets == if reliable
                                          then old(pendingPackets)[r.value := ClientPacket(built.value, now + timeout, 0, timeout)]
                                          else old(pendingPackets)
      ensures r.Raise? ==> log == old(log) && pendingPackets == old(pendingPackets)
    {
      hide EncodePacket, SealPacket, XorIvWithSeq, SenderSafe, WireSafe, StoredSafe, SealedSafe;
      AllotKeepsSafe(log, pendingPackets, sealed, protector, state.sendPacketNumber);
      var n := state.NextPacketNumber();
      var bytes := payload;
      if packetType == APP_DATA {
        var sealedPayload := SealPacket(c, protector, state.connectionId, n, payload, epoch);
        if sealedPayload.Raise? {
          return Raise(sealedPayload.exception);
        }
        SealedHasNonce(c, protector, state.connectionId, n, payload, epoch);
        SealKeepsSafe(sealed, protector.value, n);
        sealed := sealed + [n];
        bytes := sealedPayload.value;
      }
      var encoded := EncodePacket(Packet(packetType, state.connectionId, n, bytes, epoch, PACKET_VERSION));
      if encoded.Raise? {
        return Raise(encoded.exception);
      }
      if socketRaises {
        return Raise(ValueError);
      }
      var deadline := now + RetryTimeout(packetType);
      var stored := ClientPacket(encoded.value, deadline, 0, RetryTimeout(packetType));
      FirstSendKeepsSafe(log, pendingPackets, n, stored, reliable);
      log := log + [Sent(n, encoded.value)];
      if reliable {
        state.ScheduleRetransmission(n, deadline);
        pendingPackets := pendingPackets[n := stored];
      }
      r := Ok(n);
    }

    /** An acknowledgement received for n, or the expected reply to n. */
    method SettlePacket(n: nat)
      requires Valid()
      modifies this, state
      ensures Valid() && sealed == old(sealed) && protector == old(protector)
      ensures state.sendPacketNumber == old(state.sendPacketNumber)
      ensures pendingPackets == old(pendingPackets) - {n} && n in state.ackedPackets
      ensures log == Settle(old(log), state.sendPacketNumber, n)
    {
      hide XorIvWithSeq, SenderSafe, WireSafe, StoredSafe, SealedSafe;
      SettleKeepsSafe(log, pendingPackets, state.sendPacketNumber, n);
      log := Settle(log, state.sendPacketNumber, n);
      pendingPackets := pendingPackets - {n};
      var first := state.AcknowledgePacket(n);
    }

    /** One timeout of the retry loop: nothing when the packet is settled, an error when the budget is spent. */
    method RetryAfterTimeout(n: nat, now: real) returns (r: RetryOutcome)
      requires Valid()
      modifies this`pendingPackets, this`log
      ensures Valid() && pendingPackets.Keys == old(pendingPackets.Keys)
      ensures r == if n !in old(pendingPackets) then AlreadySettled
                   else if old(pendingPackets)[n].attempts >= MAX_RETRIES then Exhausted else SentAgain
      ensures !r.SentAgain? ==> pendingPackets == old(pendingPackets) && log == old(log)
      ensures r.SentAgain? ==> var p := old(pendingPackets)[n];
                            log == old(log) + [Sent(n, p.bytes)] &&
                            pendingPackets == old(pendingPackets)[n := Retry(p, now)]
    {
      hide XorIvWithSeq, SenderSafe, WireSafe, StoredSafe, SealedSafe;
      if n !in pendingPackets {
        return AlreadySettled;
      }
      var entry := pendingPackets[n];
      if entry.attempts >= MAX_RETRIES {
        return Exhausted;
      }
      var p := ClientPacket(entry.bytes, now + entry.timeout, entry.attempts + 1, entry.timeout);
      ResendKeepsSafe(log, pendingPackets, state.sendPacketNumber, n, p);
      log := log + [Sent(n, entry.bytes)];
      pendingPackets := pendingPackets[n := p];
      r := SentAgain;
    }

    /** One due packet is sent again and rescheduled in both tables. */
    method Resend(n: nat, now: real)
      requires Valid() && n in pendingPackets && pendingPackets[n].attempts < MAX_RETRIES
      modifies this`pendingPackets, this`log, state`retransmissions
      ensures Valid()
      ensures pendingPackets == old(pendingPackets)[n := Retry(old(pendingPackets)[n], now)]
      ensures log == old(log) + [Sent(n, old(pendingPackets)[n].bytes)]
    {
      hide XorIvWithSeq, SenderSafe, WireSafe, StoredSafe, SealedSafe;
      var outcome := RetryAfterTimeout(n, now);
      state.ScheduleRetransmission(n, pendingPackets[n].deadline);
    }

    /** Every due packet is sent once more, with the bytes it was first sent with; nothing else is. */
    method ProcessExpiredRetransmissions(now: real)
      requires Valid()
      modifies this`pendingPackets, this`log, state`retransmissions
      ensures Valid()
      ensures Resent(old(log), log, old(Due(state.retransmissions, pendingPackets, now)), old(pendingPackets))
      ensures pendingPackets == Retried(old(pendingPackets), old(Due(state.retransmissions, pendingPackets, now)), now)
    {
      hide XorIvWithSeq, SenderSafe, WireSafe, StoredSafe, SealedSafe;
      var expired := state.ExpiredRetransmissions(now);
      ghost var due, stored, log0 := Due(state.retransmissions, pendingPackets, now), pendingPackets, log;
      NoneRetried(log0, stored, due, expired, now);
      hide Progress, Due, Valid, MayRetry, QUICConnectionState.ExpiredRetransmissions;
      while expired != {}
        invariant Valid()
        invariant Progress(log0, log, stored, pendingPackets, due, expired, now)
        decreases |expired|
      {
        var n: nat :| n in expired;
        OneMoreRetried(log0, log, stored, pendingPackets, due, expired, n, now);
        if MayRetry(pendingPackets, n) {
          Resend(n, now);
        }
        expired := expired - {n};
      }
      AllRetried(log0, log, stored, pendingPackets, due, now);
    }
  }
}
