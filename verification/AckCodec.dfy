/** Acknowledgements and body-less packets: PUBACK and its relatives (sections 3.4 to 3.7 and 3.11
    of MQTT 3.1.1), SUBACK (3.9), CONNACK (3.2), PINGREQ (3.12) and DISCONNECT (3.14). */
module AckCodec {
  import opened Prelude
  import opened RemainingLength
  import opened Wire

  datatype Ack = Ack(messageType: nat, dup: bool, id: uint16)

  /** An acknowledgement packet: section 3.6.1 gives PUBREL, alone, QoS bits 01. */
  function AckFrame(a: Ack): (f: Frame)
    requires IsMessageType(a.messageType)
  {
    Frame(HeaderByte(a.messageType, a.dup, if a.messageType == PUBREL then 1 else 0, false), U16(a.id))
  }

  function ParseAck(f: Frame): (r: Option<Ack>) {
    if |f.body| < 2 then None else Some(Ack(TypeOf(f.header), DupOf(f.header), U16At(f.body)))
  }

  lemma AckRoundTrip(a: Ack)
    requires IsMessageType(a.messageType)
    ensures ParseAck(AckFrame(a)) == Some(a)
    ensures |Canonical(AckFrame(a))| == 4
  {
    hide HeaderByte, TypeOf, DupOf, QosOf, RetainOf, U16, U16At, Encode;
    HeaderFields(a.messageType, a.dup, if a.messageType == PUBREL then 1 else 0, false);
    Uint16RoundTrip(a.id);
    EncodeOnce(2);
  }

  method SerializeAck(buf: array<byte>, txBufLen: nat, messageType: int, dup: byte, packetId: uint16)
    returns (rc: Rc, len: nat)
    requires txBufLen <= buf.Length
    modifies buf
    ensures rc == if txBufLen < 4 then TxBufferTooShort else if IsMessageType(messageType) then MqttSuccess
              else MqttFailure
    ensures rc != MqttSuccess ==> buf[..] == old(buf[..])
    ensures rc == MqttSuccess ==>
              var packet := Canonical(AckFrame(Ack(messageType, dup == 1, packetId)));
              len == |packet| <= txBufLen && buf[..len] == packet && buf[..] == Splice(old(buf[..]), 0, packet)
  {
    len := 0;
    if txBufLen < 4 {
      return TxBufferTooShort, len;
    }
    var requestQoS := if messageType == PUBREL then QOS1 else QOS0;
    var header;
    rc, header := InitHeader(messageType, requestQoS, dup, 0);
    if rc != MqttSuccess {
      return;
    }
    ghost var start := buf[..];
    len := PutFixedHeader(buf, header, 2, start);
    len := PutUint16(buf, len, packetId, start, FixedHeader(header, 2));
  }

  method DeserializeAck(buf: array<byte>) returns (rc: Rc, messageType: nat, dup: bool, packetId: uint16)
    requires HoldsPacket(buf[..])
    ensures rc == MqttSuccess || rc == MqttFailure || rc == RxBufferTooShort || rc == DecodeRemainingLengthError
    ensures buf.Length < 4 ==> rc == RxBufferTooShort
    ensures rc == MqttSuccess <==>
              buf.Length >= 4 && TakeFrame(buf[..]).Some? && ParseAck(TakeFrame(buf[..]).value.0).Some?
    ensures rc == MqttSuccess ==> ParseAck(TakeFrame(buf[..]).value.0) == Some(Ack(messageType, dup, packetId))
  {
    messageType, dup, packetId := 0, false, 0;
    if buf.Length < 4 {
      rc := RxBufferTooShort;
      return;
    }
    messageType, dup := TypeOf(buf[0]), DupOf(buf[0]);
    var at, end;
    rc, at, end := ReadRemainingLength(buf);
    if rc != MqttSuccess {
      return;
    }
    if end - at < 2 {
      rc := MqttFailure;
      return;
    }
    packetId := ReadUint16(buf, at);
    assert buf[at..end][..2] == buf[at..][..2];
  }

  method DeserializeUnsuback(buf: array<byte>) returns (rc: Rc, packetId: uint16)
    requires HoldsPacket(buf[..])
    ensures rc == MqttSuccess || rc == MqttFailure || rc == RxBufferTooShort || rc == DecodeRemainingLengthError
    ensures rc == MqttSuccess <==>
              && buf.Length >= 4 && TakeFrame(buf[..]).Some?
              && ParseAck(TakeFrame(buf[..]).value.0).Some? && TypeOf(buf[0]) == UNSUBACK
    ensures rc == MqttSuccess ==> packetId == ParseAck(TakeFrame(buf[..]).value.0).value.id
  {
    var messageType, dup;
    rc, messageType, dup, packetId := DeserializeAck(buf);
    if rc == MqttSuccess && messageType != UNSUBACK {
      rc := MqttFailure;
    }
  }

  // ---------- Packets without a body ----------

  function EmptyFrame(messageType: nat): (f: Frame)
    requires IsMessageType(messageType)
  {
    Frame(HeaderByte(messageType, false, 0, false), [])
  }

  method SerializeZero(buf: array<byte>, txBufLen: nat, messageType: int) returns (rc: Rc, len: nat)
    requires txBufLen <= buf.Length
    modifies buf
    ensures rc == if txBufLen < 4 then TxBufferTooShort else if IsMessageType(messageType) then MqttSuccess
              else MqttFailure
    ensures rc != MqttSuccess ==> buf[..] == old(buf[..])
    ensures rc == MqttSuccess ==>
              var packet := Canonical(EmptyFrame(messageType));
              len == |packet| == 2 && buf[..len] == packet && buf[..] == Splice(old(buf[..]), 0, packet)
  {
    len := 0;
    if txBufLen < 4 {
      return TxBufferTooShort, len;
    }
    var header;
    rc, header := InitHeader(messageType, QOS0, 0, 0);
    if rc != MqttSuccess {
      return;
    }
    len := PutFixedHeader(buf, header, 0, buf[..]);
    assert FixedHeader(header, 0) + [] == FixedHeader(header, 0);
  }

  // ---------- SUBACK ----------

  /** Packet id and return codes of a SUBACK. */
  function ParseSuback(f: Frame): (r: Option<(uint16, seq<byte>)>) {
    if TypeOf(f.header) != SUBACK || |f.body| < 2 then None else Some((U16At(f.body), f.body[2..]))
  }

  /** The documented limit on the number of return codes is `maxExpected`; the test made before
      each store lets one more through. */
  method DeserializeSuback(buf: array<byte>, maxExpected: nat, granted: array<byte>)
    returns (rc: Rc, packetId: uint16, count: nat)
    requires HoldsPacket(buf[..])
    requires granted.Length > maxExpected && granted != buf
    modifies granted
    ensures rc == MqttSuccess || rc == MqttFailure || rc == RxBufferTooShort || rc == DecodeRemainingLengthError
    ensures buf.Length < 5 ==> rc == RxBufferTooShort
    ensures rc == MqttSuccess <==>
              && buf.Length >= 5 && TakeFrame(buf[..]).Some?
              && ParseSuback(TakeFrame(buf[..]).value.0).Some?
              && |ParseSuback(TakeFrame(buf[..]).value.0).value.1| <= maxExpected + 1
    ensures rc == MqttSuccess ==>
              && count <= granted.Length
              && ParseSuback(TakeFrame(buf[..]).value.0) == Some((packetId, granted[..count]))
              && granted[count..] == old(granted[count..])
  {
    hide Encode, DecodeWithin;
    packetId, count := 0, 0;
    if buf.Length < 5 {
      rc := RxBufferTooShort;
      return;
    }
    if TypeOf(buf[0]) != SUBACK {
      rc := MqttFailure;
      return;
    }
    var at, end;
    rc, at, end := ReadRemainingLength(buf);
    if rc != MqttSuccess {
      return;
    }
    if end - at < 2 {
      rc := MqttFailure;
      return;
    }
    packetId := ReadUint16(buf, at);
    assert buf[at..end][..2] == buf[at..][..2];
    assert buf[at..end][2..] == buf[at + 2..end];
    rc, count := ReadReturnCodes(buf, at + 2, end, maxExpected, granted);
  }

  method ReadReturnCodes(buf: array<byte>, at: nat, end: nat, maxExpected: nat, granted: array<byte>)
    returns (rc: Rc, count: nat)
    requires at <= end <= buf.Length && granted.Length > maxExpected && granted != buf
    modifies granted
    ensures rc == if end - at <= maxExpected + 1 then MqttSuccess else MqttFailure
    ensures rc == MqttSuccess ==>
              count == end - at <= granted.Length && granted[..count] == buf[at..end] &&
                  granted[count..] == old(granted[count..])
  {
    count := 0;
    var cur := at;
    while cur < end
      invariant cur == at + count && cur <= end
      invariant count <= maxExpected + 1
      invariant granted[..count] == buf[at..cur]
      invariant granted[count..] == old(granted[count..])
    {
      if count > maxExpected {
        return MqttFailure, count;
      }
      granted[count] := buf[cur];
      assert granted[count + 1..] == old(granted[count + 1..]);
      count, cur := count + 1, cur + 1;
    }
    rc := MqttSuccess;
  }

  // ---------- CONNACK ----------

  function ConnackCode(code: byte): (r: Rc) {
    match code
    case 0 => ConnackAccepted
    case 1 => ConnackUnacceptableProtocolVersion
    case 2 => ConnackIdentifierRejected
    case 3 => ConnackServerUnavailable
    case 4 => ConnackBadUserdata
    case 5 => ConnackNotAuthorized
    case _ => ConnackUnknown
  }

  /** The return code of a CONNACK, whose body has exactly two bytes. */
  function ParseConnack(f: Frame): (r: Option<Rc>) {
    if TypeOf(f.header) != CONNACK || |f.body| != 2 then None else Some(ConnackCode(f.body[1]))
  }

  method DeserializeConnack(buf: array<byte>) returns (rc: Rc, sessionPresent: bool, connackRc: Rc)
    requires HoldsPacket(buf[..])
    ensures rc == MqttSuccess || rc == MqttFailure || rc == RxBufferTooShort || rc == DecodeRemainingLengthError
    ensures buf.Length < 4 ==> rc == RxBufferTooShort
    ensures rc == MqttSuccess <==>
              buf.Length >= 4 && TakeFrame(buf[..]).Some? && ParseConnack(TakeFrame(buf[..]).value.0).Some?
    ensures rc == MqttSuccess ==>
              && ParseConnack(TakeFrame(buf[..]).value.0) == Some(connackRc)
              // the flag is read from the top bit; section 3.2.2.2 puts it in the lowest one
              && sessionPresent == (TakeFrame(buf[..]).value.0.body[0] >= 128)
  {
    sessionPresent, connackRc := false, MqttFailure;
    if buf.Length < 4 {
      rc := RxBufferTooShort;
      return;
    }
    if TypeOf(buf[0]) != CONNACK {
      rc := MqttFailure;
      return;
    }
    var at, end;
    rc, at, end := ReadRemainingLength(buf);
    if rc != MqttSuccess {
      return;
    }
    if end - at != 2 {
      rc := DecodeRemainingLengthError;
      return;
    }
    sessionPresent := buf[at] >= 128;
    connackRc := ConnackCode(buf[at + 1]);
  }
}
