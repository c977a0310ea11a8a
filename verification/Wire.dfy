/** The building blocks of every packet: the fixed header (section 2.2 of MQTT 3.1.1), 16-bit
    integers, length-prefixed strings, and whole frames. */
module Wire {
  import opened Prelude
  import opened RemainingLength

  // ---------- Packet types ----------

  const CONNECT: nat := 1
  const CONNACK: nat := 2
  const PUBLISH: nat := 3
  const PUBACK: nat := 4
  const PUBREC: nat := 5
  const PUBREL: nat := 6
  const PUBCOMP: nat := 7
  const SUBSCRIBE: nat := 8
  const SUBACK: nat := 9
  const UNSUBSCRIBE: nat := 10
  const UNSUBACK: nat := 11
  const PINGREQ: nat := 12
  const PINGRESP: nat := 13
  const DISCONNECT: nat := 14

  predicate IsMessageType(t: int) {
    CONNECT <= t <= DISCONNECT
  }

  datatype QoS = QOS0 | QOS1

  function QosBits(q: QoS): (r: nat) {
    match q case QOS0 => 0 case QOS1 => 1
  }

  // ---------- Fixed header byte ----------

  function Bit(b: bool): (r: nat) {
    if b then 1 else 0
  }

  function HeaderByte(messageType: nat, dup: bool, qos: nat, retain: bool): (r: byte)
    requires messageType < 16 && qos < 4
  {
    messageType * 16 + Bit(dup) * 8 + qos * 2 + Bit(retain)
  }

  function TypeOf(header: byte): (r: nat) { header / 16 }
  function DupOf(header: byte): bool { header / 8 % 2 == 1 }
  function QosOf(header: byte): (r: nat) { header / 2 % 4 }
  function RetainOf(header: byte): bool { header % 2 == 1 }

  /** The four fields of the header byte and the byte determine each other. */
  lemma HeaderRoundTrip(messageType: nat, dup: bool, qos: nat, retain: bool, header: byte)
    requires messageType < 16 && qos < 4
    ensures header == HeaderByte(messageType, dup, qos, retain)
       <==> TypeOf(header) == messageType && DupOf(header) == dup && QosOf(header) == qos && RetainOf(header) == retain
  {
    HeaderParts(header);
    if header == HeaderByte(messageType, dup, qos, retain) {
      HeaderFields(messageType, dup, qos, retain);
    }
  }

  lemma HeaderParts(header: byte)
    ensures header == HeaderByte(TypeOf(header), DupOf(header), QosOf(header), RetainOf(header))
  {
    var h: int := header;
    var h2, h8, h16 := h / 2, h / 8, h / 16;
    assert h == 2 * h2 + h % 2;
    assert h2 == 4 * h8 + h2 % 4 by { assert h2 / 4 == h8; }
    assert h8 == 2 * h16 + h8 % 2 by { assert h8 / 2 == h16; }
  }

  lemma HeaderFields(messageType: nat, dup: bool, qos: nat, retain: bool)
    requires messageType < 16 && qos < 4
    ensures var header := HeaderByte(messageType, dup, qos, retain);
            TypeOf(header) == messageType && DupOf(header) == dup && QosOf(header) == qos && RetainOf(header) == retain
  {
    var h: int := HeaderByte(messageType, dup, qos, retain);
    assert h / 2 == 8 * messageType + 4 * Bit(dup) + qos;
    assert h / 8 == 2 * messageType + Bit(dup);
    assert h / 16 == messageType;
  }

  /** `dup` and `retained` count as set only when they are exactly 1. */
  method InitHeader(messageType: int, qos: QoS, dup: byte, retained: byte) returns (rc: Rc, header: byte)
    ensures rc == if IsMessageType(messageType) then MqttSuccess else MqttFailure
    ensures rc == MqttSuccess ==>
              && TypeOf(header) == messageType && QosOf(header) == QosBits(qos)
              && DupOf(header) == (dup == 1) && RetainOf(header) == (retained == 1)
              && header == HeaderByte(messageType, dup == 1, QosBits(qos), retained == 1)
  {
    header := 0;
    if !IsMessageType(messageType) {
      return MqttFailure, header;
    }
    header := messageType * 16;
    if dup == 1 {
      header := header + 8;
    }
    if qos == QOS1 {
      header := header + 2;
    }
    if retained == 1 {
      header := header + 1;
    }
    HeaderRoundTrip(messageType, dup == 1, QosBits(qos), retained == 1, header);
    return MqttSuccess, header;
  }

  // ---------- Integers and strings ----------

  function U16(n: uint16): (r: seq<byte>)
    ensures |r| == 2
  {
    [n / 256, n % 256]
  }

  function U16At(s: seq<byte>): (r: uint16)
    requires |s| >= 2
  {
    s[0] as int * 256 + s[1] as int
  }

  lemma Uint16RoundTrip(n: uint16)
    ensures U16At(U16(n)) == n
  {
    var high, low := n / 256, n % 256;
    assert n == high * 256 + low;
  }

  function TextBytes(t: Text): (r: seq<byte>)
    ensures |r| == 2 + |t|
  {
    U16(|t|) + t
  }

  /** The string at the head of `s` and what follows it. */
  function TakeText(s: seq<byte>): (r: Option<(Text, seq<byte>)>)
    ensures r.Some? ==> |r.value.1| < |s|
  {
    if |s| < 2 || |s| - 2 < U16At(s) then None
    else
      var n := U16At(s);
      Some((s[2..2 + n], s[2 + n..]))
  }

  lemma TextRoundTrip(t: Text, rest: seq<byte>)
    ensures TakeText(TextBytes(t) + rest) == Some((t, rest))
  {
    var s := TextBytes(t) + rest;
    assert U16At(s) == |t|;
    assert s[2..2 + |t|] == t;
    assert s[2 + |t|..] == rest;
  }

  lemma TakeTextUndone(s: seq<byte>)
    requires TakeText(s).Some?
    ensures TextBytes(TakeText(s).value.0) + TakeText(s).value.1 == s
  {
    var (t, rest) := TakeText(s).value;
    assert s[..2] == U16(|t|);
    assert s == s[..2] + t + rest;
  }

  // ---------- Writing a packet from left to right ----------

  /** `buf` is `start` with `out` written over its beginning. */
  ghost predicate Written(buf: array<byte>, start: seq<byte>, out: seq<byte>)
    reads buf
  {
    && |start| == buf.Length
    && |out| <= buf.Length
    && buf[..] == Splice(start, 0, out)
  }

  method PutBytes(buf: array<byte>, at: nat, data: seq<byte>, ghost start: seq<byte>, ghost out: seq<byte>)
    returns (next: nat)
    requires Written(buf, start, out) && at == |out| && at + |data| <= buf.Length
    modifies buf
    ensures next == |out + data| && Written(buf, start, out + data)
  {
    WriteBytes(buf, at, data);
    SpliceAppend(start, 0, out, data);
    next := at + |data|;
  }

  method PutByte(buf: array<byte>, at: nat, b: byte, ghost start: seq<byte>, ghost out: seq<byte>)
    returns (next: nat)
    requires Written(buf, start, out) && at == |out| && at < buf.Length
    modifies buf
    ensures next == |out + [b]| && Written(buf, start, out + [b])
  {
    WriteByte(buf, at, b);
    SpliceAppend(start, 0, out, [b]);
    next := at + 1;
  }

  method PutUint16(buf: array<byte>, at: nat, n: uint16, ghost start: seq<byte>, ghost out: seq<byte>)
    returns (next: nat)
    requires Written(buf, start, out) && at == |out| && at + 2 <= buf.Length
    modifies buf
    ensures next == |out + U16(n)| && Written(buf, start, out + U16(n))
  {
    next := PutByte(buf, at, n / 256, start, out);
    next := PutByte(buf, next, n % 256, start, out + [n / 256]);
    assert out + [n / 256] + [n % 256] == out + U16(n);
  }

  method PutText(buf: array<byte>, at: nat, t: Text, ghost start: seq<byte>, ghost out: seq<byte>)
    returns (next: nat)
    requires Written(buf, start, out) && at == |out| && at + 2 + |t| <= buf.Length
    modifies buf
    ensures next == |out + TextBytes(t)| && Written(buf, start, out + TextBytes(t))
  {
    next := PutUint16(buf, at, |t|, start, out);
    if |t| > 0 {
      next := PutBytes(buf, next, t, start, out + U16(|t|));
    }
    assert out + U16(|t|) + t == out + TextBytes(t);
  }

  /** The header byte and the remaining length, which open every packet. */
  method PutFixedHeader(buf: array<byte>, header: byte, remLen: nat, ghost start: seq<byte>) returns (next: nat)
    requires start == buf[..] && 1 + |Encode(remLen)| <= buf.Length
    modifies buf
    ensures next == |FixedHeader(header, remLen)| && Written(buf, start, FixedHeader(header, remLen))
  {
    WriteByte(buf, 0, header);
    var n := WriteLength(buf, 1, remLen);
    SpliceAppend(start, 0, [header], Encode(remLen));
    next := 1 + n;
  }

  function FixedHeader(header: byte, remLen: nat): (r: seq<byte>)
    ensures |r| == 1 + |Encode(remLen)|
  {
    [header] + Encode(remLen)
  }

  // ---------- Frames ----------

  /** A packet without its length field, which the body determines. */
  datatype Frame = Frame(header: byte, body: seq<byte>)

  function Canonical(f: Frame): (r: seq<byte>)
    ensures |r| == 1 + |Encode(|f.body|)| + |f.body|
  {
    FixedHeader(f.header, |f.body|) + f.body
  }

  /** The frame at the head of `s` and the number of bytes it takes. */
  function TakeFrame(s: seq<byte>): (r: Option<(Frame, nat)>)
    ensures r.Some? ==> r.value.1 <= |s|
  {
    if |s| == 0 then None
    else
      match Decode(s[1..])
      case None => None
      case Some((n, used)) =>
        if |s| < 1 + used + n then None
        else Some((Frame(s[0], s[1 + used..1 + used + n]), 1 + used + n))
  }

  lemma FrameRoundTrip(f: Frame, rest: seq<byte>)
    requires |f.body| < LIMIT
    ensures TakeFrame(Canonical(f) + rest) == Some((f, |Canonical(f)|))
  {
    var s := Canonical(f) + rest;
    var n := |Encode(|f.body|)|;
    RoundTrip(|f.body|, f.body + rest);
    assert s[1..] == Encode(|f.body|) + (f.body + rest);
    assert s[1 + n..1 + n + |f.body|] == f.body;
  }

  /** A receive buffer a deserialiser may look at: it is too small for any packet, or its length
      field can be decoded and the packet it announces lies within it. */
  predicate HoldsPacket(s: seq<byte>) {
    |s| < 4 || (Readable(s[1..], MAX_FIELD_BYTES) && (Decode(s[1..]).Some? ==> TakeFrame(s).Some?))
  }

  /** A canonical frame at the start of a buffer is a packet the deserialisers can read. */
  lemma CanonicalHoldsPacket(s: seq<byte>, f: Frame)
    requires |f.body| < LIMIT && Canonical(f) <= s
    ensures HoldsPacket(s) && TakeFrame(s) == Some((f, |Canonical(f)|))
    ensures |s| >= 2 && s[0] == f.header && Decode(s[1..]) == Some((|f.body|, |Encode(|f.body|)|))
  {
    hide Encode, DecodeWithin;
    var rest := s[|Canonical(f)|..];
    assert s == Canonical(f) + rest;
    FrameRoundTrip(f, rest);
    AfterHeader(f, rest);
    RoundTrip(|f.body|, f.body + rest);
    DecodableIsReadable(s[1..], MAX_FIELD_BYTES);
  }

  lemma AfterHeader(f: Frame, rest: seq<byte>)
    ensures (Canonical(f) + rest)[0] == f.header
    ensures (Canonical(f) + rest)[1..] == Encode(|f.body|) + (f.body + rest)
  {
    hide Encode;
  }

  // ---------- Reading a packet ----------

  method ReadUint16(buf: array<byte>, at: nat) returns (n: uint16)
    requires at + 2 <= buf.Length
    ensures n == U16At(buf[at..])
  {
    var first: int := buf[at];
    var second: int := buf[at + 1];
    n := second + 256 * first;
  }

  /** Where the body of the packet in `buf` begins and ends. */
  method ReadRemainingLength(buf: array<byte>) returns (rc: Rc, at: nat, end: nat)
    requires buf.Length >= 4 && HoldsPacket(buf[..])
    ensures rc == match TakeFrame(buf[..]) case Some(_) => MqttSuccess case None => DecodeRemainingLengthError
    ensures TakeFrame(buf[..]).Some? <==> Decode(buf[1..]).Some?
    ensures rc == MqttSuccess ==>
              at <= end <= buf.Length && TakeFrame(buf[..]) == Some((Frame(buf[0], buf[at..end]), end))
  {
    ghost var s := buf[..];
    assert s[1..] == buf[1..];
    at, end := 0, 0;
    var decodedLen, readBytesLen;
    rc, decodedLen, readBytesLen := DecodeFromBuffer(buf, 1);
    if rc == MqttSuccess {
      at := 1 + readBytesLen;
      end := at + decodedLen;
      assert s[at..end] == buf[at..end];
    }
  }
}
