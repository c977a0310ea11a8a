/** PUBLISH packets (section 3.3 of MQTT 3.1.1): serialiser, deserialiser and their meaning. */
module PublishCodec {
  import opened Prelude
  import opened RemainingLength
  import opened Wire

  /** An application message. A message of QoS 0 carries no packet id; its `id` is 0. */
  datatype Message = Message(dup: bool, qos: nat, retain: bool, id: uint16, topic: Text, payload: seq<byte>)

  predicate IsMessage(m: Message) {
    && m.qos < 4
    && (m.qos == 0 ==> m.id == 0)
  }

  function Body(m: Message): (r: seq<byte>)
    ensures |r| == PublishRemaining(m.topic, m.qos > 0, m.payload)
  {
    TextBytes(m.topic) + (if m.qos > 0 then U16(m.id) else []) + m.payload
  }

  function PublishRemaining(topic: Text, hasId: bool, payload: seq<byte>): (r: nat) {
    |topic| + |payload| + 2 + (if hasId then 2 else 0)
  }

  function PublishFrame(m: Message): (f: Frame)
    requires IsMessage(m)
  {
    Frame(HeaderByte(PUBLISH, m.dup, m.qos, m.retain), Body(m))
  }

  /** The message in a frame, read as section 3.3 describes it. */
  function ParsePublish(f: Frame): (r: Option<Message>)
    ensures r.Some? ==> IsMessage(r.value)
  {
    if TypeOf(f.header) != PUBLISH then None
    else
      match TakeText(f.body)
      case None => None
      case Some((topic, rest)) =>
        var qos := QosOf(f.header);
        if qos == 0 then Some(Message(DupOf(f.header), 0, RetainOf(f.header), 0, topic, rest))
        else if |rest| < 2 then None
        else Some(Message(DupOf(f.header), qos, RetainOf(f.header), U16At(rest), topic, rest[2..]))
  }

  /** Messages and PUBLISH frames are in one-to-one correspondence. */
  lemma PublishRoundTrip(m: Message, f: Frame)
    requires IsMessage(m)
    ensures ParsePublish(f) == Some(m) <==> f == PublishFrame(m)
  {
    if f == PublishFrame(m) {
      PublishThenParse(m);
    }
    if ParsePublish(f) == Some(m) {
      ParseThenPublish(f);
    }
  }

  lemma PublishThenParse(m: Message)
    requires IsMessage(m)
    ensures ParsePublish(PublishFrame(m)) == Some(m)
  {
    hide TakeText, ParsePublish, TextBytes, HeaderByte;
    HeaderFields(PUBLISH, m.dup, m.qos, m.retain);
    var tail := (if m.qos > 0 then U16(m.id) else []) + m.payload;
    TextRoundTrip(m.topic, tail);
    assert Body(m) == TextBytes(m.topic) + tail;
    ParseByParts(PublishFrame(m).header, Body(m));
    if m.qos > 0 {
      assert tail[2..] == m.payload && U16At(tail) == m.id;
    } else {
      assert tail == m.payload;
    }
  }

  lemma ParseThenPublish(f: Frame)
    requires ParsePublish(f).Some?
    ensures PublishFrame(ParsePublish(f).value) == f
  {
    var m := ParsePublish(f).value;
    HeaderParts(f.header);
    var rest := TakeText(f.body).value.1;
    TakeTextUndone(f.body);
    if m.qos > 0 {
      assert rest == U16(m.id) + m.payload;
    } else {
      assert rest == [] + m.payload;
    }
    Associate(TextBytes(m.topic), if m.qos > 0 then U16(m.id) else [], m.payload);
  }

  /** The message that the serialiser's arguments stand for. */
  function Outgoing(dup: byte, qos: QoS, retained: byte, packetId: uint16, topic: Text,
      payload: seq<byte>): (m: Message)
    ensures IsMessage(m)
  {
    Message(dup == 1, QosBits(qos), retained == 1, if qos == QOS0 then 0 else packetId, topic, payload)
  }

  method SerializePublish(buf: array<byte>, txBufLen: nat, dup: byte, qos: QoS, retained: byte, packetId: uint16,
                          topic: Text, payload: seq<byte>)
    returns (rc: Rc, len: nat)
    requires txBufLen <= buf.Length && txBufLen <= LIMIT
    requires FinalPacketLength(PublishRemaining(topic, qos == QOS1, payload)) < WORD
    modifies buf
    ensures rc == if FinalPacketLength(PublishRemaining(topic, qos == QOS1, payload)) > txBufLen
                  then TxBufferTooShort else MqttSuccess
    ensures rc != MqttSuccess ==> buf[..] == old(buf[..])
    ensures rc == MqttSuccess ==>
              var packet := Canonical(PublishFrame(Outgoing(dup, qos, retained, packetId, topic, payload)));
              len == |packet| <= txBufLen && buf[..len] == packet && buf[..] == Splice(old(buf[..]), 0, packet)
  {
    hide Encode, HeaderByte, TextBytes, U16;
    ghost var m := Outgoing(dup, qos, retained, packetId, topic, payload);
    len := 0;
    var remLen := |topic| + |payload| + 2;
    if qos == QOS1 {
      remLen := remLen + 2;
    }
    if FinalPacketLength(remLen) > txBufLen {
      return TxBufferTooShort, len;
    }
    EstimateIsExactUnlessAtBoundary(remLen);
    var header;
    rc, header := InitHeader(PUBLISH, qos, dup, retained);
    ghost var start := buf[..];
    var ptr := PutFixedHeader(buf, header, remLen, start);
    ghost var out := FixedHeader(header, remLen);
    ptr := PutText(buf, ptr, topic, start, out);
    out := out + TextBytes(topic);
    if qos == QOS1 {
      ptr := PutUint16(buf, ptr, packetId, start, out);
      out := out + U16(packetId);
    } else {
      out := out + [];
    }
    ptr := PutBytes(buf, ptr, payload, start, out);
    AssociateBody(FixedHeader(header, remLen), TextBytes(topic), if qos == QOS1 then U16(packetId) else [], payload);
    return MqttSuccess, ptr;
  }

  lemma AssociateBody(h: seq<byte>, t: seq<byte>, id: seq<byte>, payload: seq<byte>)
    ensures h + t + id + payload == h + (t + id + payload)
  {
  }

  /** The length-prefixed string at `at`, when it ends by `end`. */
  method ReadStringWithLen(buf: array<byte>, at: nat, end: nat) returns (rc: Rc, stringAt: nat, stringLen: uint16)
    requires at <= end <= buf.Length
    ensures rc == match TakeText(buf[at..end]) case Some(_) => MqttSuccess case None => MqttFailure
    ensures rc == MqttSuccess ==>
              && stringAt == at + 2 && stringAt + stringLen <= end
              && TakeText(buf[at..end]) == Some((buf[stringAt..stringAt + stringLen], buf[stringAt + stringLen..end]))
  {
    ghost var s := buf[at..end];
    stringAt, stringLen := at, 0;
    if end - at > 1 {
      stringLen := ReadUint16(buf, at);
      stringAt := at + 2;
      assert s[..2] == buf[at..at + 2] && U16At(s) == stringLen;
      if stringAt + stringLen <= end {
        assert s[2..2 + stringLen] == buf[stringAt..stringAt + stringLen];
        assert s[2 + stringLen..] == buf[stringAt + stringLen..end];
        return MqttSuccess, stringAt, stringLen;
      }
    }
    return MqttFailure, stringAt, stringLen;
  }

  /** A frame whose QoS promises a packet id also has room for it. */
  predicate IdPresent(f: Frame) {
    QosOf(f.header) != 0 && TakeText(f.body).Some? ==> |TakeText(f.body).value.1| >= 2
  }

  /** The topic and the payload are returned as places in the buffer, as in the source. */
  method DeserializePublish(buf: array<byte>)
    returns (rc: Rc, dup: bool, qos: nat, retain: bool, packetId: uint16,
             topicAt: nat, topicLen: uint16, payloadAt: nat, payloadLen: nat)
    requires HoldsPacket(buf[..])
    requires TakeFrame(buf[..]).Some? ==> IdPresent(TakeFrame(buf[..]).value.0)
    ensures rc == MqttSuccess <==>
              buf.Length >= 4 && TakeFrame(buf[..]).Some? && ParsePublish(TakeFrame(buf[..]).value.0).Some?
    ensures rc == MqttSuccess || rc == MqttFailure || rc == RxBufferTooShort || rc == DecodeRemainingLengthError
    ensures buf.Length < 4 ==> rc == RxBufferTooShort
    ensures buf.Length >= 4 && TypeOf(buf[0]) == PUBLISH && Decode(buf[1..]) == None ==>
              rc == DecodeRemainingLengthError
    ensures rc == MqttSuccess ==>
              && topicAt + topicLen <= payloadAt && payloadAt + payloadLen <= buf.Length
              && ParsePublish(TakeFrame(buf[..]).value.0)
                 == Some(Message(dup, qos, retain, packetId, buf[topicAt..topicAt + topicLen],
                     buf[payloadAt..payloadAt + payloadLen]))
  {
    hide Encode, DecodeWithin, TakeText;
    rc, dup, qos, retain, packetId := MqttFailure, false, 0, false, 0;
    topicAt, topicLen, payloadAt, payloadLen := 0, 0, 0, 0;
    if buf.Length < 4 {
      rc := RxBufferTooShort;
      return;
    }
    var header := buf[0];
    if TypeOf(header) != PUBLISH {
      return;
    }
    dup, qos, retain := DupOf(header), QosOf(header), RetainOf(header);
    var cur, end;
    rc, cur, end := ReadRemainingLength(buf);
    if rc != MqttSuccess {
      return;
    }
    rc, packetId, topicAt, topicLen, payloadAt, payloadLen := ReadPublishBody(buf, header, cur, end);
  }

  method ReadPublishBody(buf: array<byte>, header: byte, at: nat, end: nat)
    returns (rc: Rc, packetId: uint16, topicAt: nat, topicLen: uint16, payloadAt: nat, payloadLen: nat)
    requires at <= end <= buf.Length && TypeOf(header) == PUBLISH
    requires IdPresent(Frame(header, buf[at..end]))
    ensures rc == if ParsePublish(Frame(header, buf[at..end])).Some? then MqttSuccess else MqttFailure
    ensures rc == MqttSuccess ==>
              && topicAt + topicLen <= payloadAt && payloadAt + payloadLen <= buf.Length
              && ParsePublish(Frame(header, buf[at..end]))
                 == Some(Message(DupOf(header), QosOf(header), RetainOf(header), packetId,
                                 buf[topicAt..topicAt + topicLen], buf[payloadAt..payloadAt + payloadLen]))
  {
    hide Encode, DecodeWithin, TakeText, ParsePublish;
    ghost var body := buf[at..end];
    packetId, payloadAt, payloadLen := 0, 0, 0;
    rc, topicAt, topicLen := ReadStringWithLen(buf, at, end);
    ParseByParts(header, body);
    if rc != MqttSuccess {
      return;
    }
    var cur: nat := topicAt + topicLen;
    ghost var rest := buf[cur..end];
    if QosOf(header) != 0 {
      packetId := ReadUint16(buf, cur);
      assert rest[..2] == buf[cur..][..2];
      cur := cur + 2;
      assert rest[2..] == buf[cur..end];
    }
    payloadLen, payloadAt := end - cur, cur;
    assert buf[payloadAt..payloadAt + payloadLen] == buf[cur..end];
  }

  /** The message in a frame, from its topic and the bytes after it. */
  lemma ParseByParts(header: byte, body: seq<byte>)
    requires TypeOf(header) == PUBLISH
    ensures match TakeText(body)
            case None => ParsePublish(Frame(header, body)) == None
            case Some((topic, rest)) =>
              && (QosOf(header) == 0 ==>
                    ParsePublish(Frame(header, body)) ==
                        Some(Message(DupOf(header), 0, RetainOf(header), 0, topic, rest)))
              && (QosOf(header) != 0 && |rest| >= 2 ==>
                    ParsePublish(Frame(header, body))
                    == Some(Message(DupOf(header), QosOf(header), RetainOf(header), U16At(rest), topic, rest[2..])))
  {
  }
}
