/** SUBSCRIBE and UNSUBSCRIBE packets (sections 3.8 and 3.10 of MQTT 3.1.1) for topic lists of
    any length. */
module SubscribeCodec {
  import opened Prelude
  import opened RemainingLength
  import opened Wire

  /** A topic filter with the QoS requested for it. */
  datatype Request = Request(filter: Text, qos: QoS)

  function RequestBytes(r: Request): (s: seq<byte>) {
    TextBytes(r.filter) + [QosBits(r.qos)]
  }

  function RequestsBytes(rs: seq<Request>): (s: seq<byte>) {
    if |rs| == 0 then [] else RequestBytes(rs[0]) + RequestsBytes(rs[1..])
  }

  function FiltersBytes(fs: seq<Text>): (s: seq<byte>) {
    if |fs| == 0 then [] else TextBytes(fs[0]) + FiltersBytes(fs[1..])
  }

  /** SUBSCRIBE and UNSUBSCRIBE carry QoS bits 01 in the fixed header (sections 3.8.1 and 3.10.1). */
  function SubscribeFrame(dup: bool, id: uint16, rs: seq<Request>): (f: Frame) {
    Frame(HeaderByte(SUBSCRIBE, dup, 1, false), U16(id) + RequestsBytes(rs))
  }

  function UnsubscribeFrame(dup: bool, id: uint16, fs: seq<Text>): (f: Frame) {
    Frame(HeaderByte(UNSUBSCRIBE, dup, 1, false), U16(id) + FiltersBytes(fs))
  }

  // ---------- Readers written from the standard ----------

  /** A payload of section 3.8.3: filters, each followed by a requested QoS of at most 1 here. */
  function ParseRequests(s: seq<byte>): (r: Option<seq<Request>>)
    decreases |s|
  {
    if |s| == 0 then Some([])
    else
      match TakeText(s)
      case None => None
      case Some((filter, rest)) =>
        if |rest| == 0 || rest[0] > 1 then None
        else
          match ParseRequests(rest[1..])
          case None => None
          case Some(more) => Some([Request(filter, if rest[0] == 1 then QOS1 else QOS0)] + more)
  }

  function ParseFilters(s: seq<byte>): (r: Option<seq<Text>>)
    decreases |s|
  {
    if |s| == 0 then Some([])
    else
      match TakeText(s)
      case None => None
      case Some((filter, rest)) =>
        match ParseFilters(rest)
        case None => None
        case Some(more) => Some([filter] + more)
  }

  /** Packet id and list of a frame, by layout alone. */
  function ReadSubscribe(f: Frame): (r: Option<(uint16, seq<Request>)>) {
    if TypeOf(f.header) != SUBSCRIBE || |f.body| < 2 then None
    else
      match ParseRequests(f.body[2..])
      case None => None
      case Some(rs) => Some((U16At(f.body), rs))
  }

  function ReadUnsubscribe(f: Frame): (r: Option<(uint16, seq<Text>)>) {
    if TypeOf(f.header) != UNSUBSCRIBE || |f.body| < 2 then None
    else
      match ParseFilters(f.body[2..])
      case None => None
      case Some(fs) => Some((U16At(f.body), fs))
  }

  /** A SUBSCRIBE as section 3.8 has it: the low header bits are 0010 (3.8.1), the packet id is not
      zero (2.3.1), and there is at least one filter (3.8.3). */
  function ParseSubscribe(f: Frame): (r: Option<(uint16, seq<Request>)>) {
    if f.header != 130 || |f.body| < 2 || f.body[..2] == [0, 0] || |f.body| == 2 then None else ReadSubscribe(f)
  }

  /** An UNSUBSCRIBE, likewise (sections 3.10.1, 2.3.1 and 3.10.3). */
  function ParseUnsubscribe(f: Frame): (r: Option<(uint16, seq<Text>)>) {
    if f.header != 162 || |f.body| < 2 || f.body[..2] == [0, 0] || |f.body| == 2 then None else ReadUnsubscribe(f)
  }

  lemma {:induction false} RequestsRoundTrip(rs: seq<Request>)
    ensures ParseRequests(RequestsBytes(rs)) == Some(rs)
    decreases |rs|
  {
    if |rs| > 0 {
      RequestsRoundTrip(rs[1..]);
      ParseRequestThen(rs[0], RequestsBytes(rs[1..]));
      assert [rs[0]] + rs[1..] == rs;
    }
  }

  lemma RequestHead(r: Request, tail: seq<byte>)
    ensures TakeText(RequestBytes(r) + tail) == Some((r.filter, [QosBits(r.qos)] + tail))
    ensures ([QosBits(r.qos)] + tail)[1..] == tail
  {
    Associate(TextBytes(r.filter), [QosBits(r.qos)], tail);
    TextRoundTrip(r.filter, [QosBits(r.qos)] + tail);
  }

  lemma {:induction false} ParseRequestThen(r: Request, tail: seq<byte>)
    requires ParseRequests(tail).Some?
    ensures ParseRequests(RequestBytes(r) + tail) == Some([r] + ParseRequests(tail).value)
  {
    var s := RequestBytes(r) + tail;
    RequestHead(r, tail);
    var rest := TakeText(s).value.1;
    assert rest[0] == QosBits(r.qos) && rest[1..] == tail;
  }

  lemma {:induction false} FiltersRoundTrip(fs: seq<Text>)
    ensures ParseFilters(FiltersBytes(fs)) == Some(fs)
    decreases |fs|
  {
    if |fs| > 0 {
      TextRoundTrip(fs[0], FiltersBytes(fs[1..]));
      FiltersRoundTrip(fs[1..]);
      assert [fs[0]] + fs[1..] == fs;
    }
  }

  /** Packet id and requests of a serialised SUBSCRIBE are there in order, for lists of any length. */
  lemma SubscribeLayoutRoundTrip(dup: bool, id: uint16, rs: seq<Request>)
    ensures ReadSubscribe(SubscribeFrame(dup, id, rs)) == Some((id, rs))
  {
    HeaderFields(SUBSCRIBE, dup, 1, false);
    assert (U16(id) + RequestsBytes(rs))[2..] == RequestsBytes(rs);
    RequestsRoundTrip(rs);
    Uint16RoundTrip(id);
  }

  lemma UnsubscribeLayoutRoundTrip(dup: bool, id: uint16, fs: seq<Text>)
    ensures ReadUnsubscribe(UnsubscribeFrame(dup, id, fs)) == Some((id, fs))
  {
    HeaderFields(UNSUBSCRIBE, dup, 1, false);
    assert (U16(id) + FiltersBytes(fs))[2..] == FiltersBytes(fs);
    FiltersRoundTrip(fs);
    Uint16RoundTrip(id);
  }

  lemma ZeroId(id: uint16, tail: seq<byte>)
    ensures (U16(id) + tail)[..2] == [0, 0] <==> id == 0
  {
    Uint16RoundTrip(id);
    assert (U16(id) + tail)[..2] == U16(id);
  }

  /** A broker that keeps to the standard reads id and requests back, in order, exactly when the
      application has set no dup bit, has given at least one filter, and the id is not zero. */
  lemma SubscribeRoundTrip(dup: bool, id: uint16, rs: seq<Request>)
    ensures ParseSubscribe(SubscribeFrame(dup, id, rs)) == Some((id, rs)) <==> !dup && |rs| > 0 && id != 0
    ensures ParseSubscribe(SubscribeFrame(dup, id, rs)) == None <==> dup || |rs| == 0 || id == 0
  {
    hide ReadSubscribe, U16;
    SubscribeLayoutRoundTrip(dup, id, rs);
    ZeroId(id, RequestsBytes(rs));
  }

  lemma UnsubscribeRoundTrip(dup: bool, id: uint16, fs: seq<Text>)
    ensures ParseUnsubscribe(UnsubscribeFrame(dup, id, fs)) == Some((id, fs)) <==> !dup && |fs| > 0 && id != 0
    ensures ParseUnsubscribe(UnsubscribeFrame(dup, id, fs)) == None <==> dup || |fs| == 0 || id == 0
  {
    hide ReadUnsubscribe, U16;
    UnsubscribeLayoutRoundTrip(dup, id, fs);
    ZeroId(id, FiltersBytes(fs));
  }

  /** Packets that the serialisers write when asked to, and that the standard forbids. No call of the
      client asks for them: it passes no dup bit, one filter, and an id from its counter. */
  lemma ForbiddenRequests(filter: Text)
    ensures ParseSubscribe(SubscribeFrame(true, 1, [Request(filter, QOS0)])) == None
    ensures ParseSubscribe(SubscribeFrame(false, 1, [])) == None
    ensures ParseUnsubscribe(UnsubscribeFrame(true, 1, [filter])) == None
    ensures ParseUnsubscribe(UnsubscribeFrame(false, 1, [])) == None
  {
    SubscribeRoundTrip(true, 1, [Request(filter, QOS0)]);
    SubscribeRoundTrip(false, 1, []);
    UnsubscribeRoundTrip(true, 1, [filter]);
    UnsubscribeRoundTrip(false, 1, []);
  }

  lemma {:induction false} RequestsBytesAppend(rs: seq<Request>, r: Request)
    ensures RequestsBytes(rs + [r]) == RequestsBytes(rs) + RequestBytes(r)
    decreases |rs|
  {
    if |rs| == 0 {
      assert rs + [r] == [r];
      assert RequestBytes(r) + [] == RequestBytes(r);
    } else {
      assert (rs + [r])[1..] == rs[1..] + [r];
      RequestsBytesAppend(rs[1..], r);
    }
  }

  lemma {:induction false} FiltersBytesAppend(fs: seq<Text>, f: Text)
    ensures FiltersBytes(fs + [f]) == FiltersBytes(fs) + TextBytes(f)
    decreases |fs|
  {
    if |fs| == 0 {
      assert fs + [f] == [f];
      assert TextBytes(f) + [] == TextBytes(f);
    } else {
      assert (fs + [f])[1..] == fs[1..] + [f];
      FiltersBytesAppend(fs[1..], f);
    }
  }

  lemma {:induction false} RequestsBytesPrefix(rs: seq<Request>, i: nat)
    requires i < |rs|
    ensures RequestsBytes(rs[..i + 1]) == RequestsBytes(rs[..i]) + RequestBytes(rs[i])
    ensures |RequestsBytes(rs[..i + 1])| <= |RequestsBytes(rs)|
    decreases |rs| - i
  {
    RequestsBytesAppend(rs[..i], rs[i]);
    assert rs[..i + 1] == rs[..i] + [rs[i]];
    if i + 1 < |rs| {
      RequestsBytesPrefix(rs, i + 1);
    } else {
      assert rs[..i + 1] == rs;
    }
  }

  lemma {:induction false} FiltersBytesPrefix(fs: seq<Text>, i: nat)
    requires i < |fs|
    ensures FiltersBytes(fs[..i + 1]) == FiltersBytes(fs[..i]) + TextBytes(fs[i])
    ensures |FiltersBytes(fs[..i + 1])| <= |FiltersBytes(fs)|
    decreases |fs| - i
  {
    FiltersBytesAppend(fs[..i], fs[i]);
    assert fs[..i + 1] == fs[..i] + [fs[i]];
    if i + 1 < |fs| {
      FiltersBytesPrefix(fs, i + 1);
    } else {
      assert fs[..i + 1] == fs;
    }
  }

  // ---------- Serialisers ----------

  method SerializeSubscribe(buf: array<byte>, txBufLen: nat, dup: byte, packetId: uint16, topics: seq<Request>)
    returns (rc: Rc, len: nat)
    requires txBufLen <= buf.Length && txBufLen <= LIMIT
    requires FinalPacketLength(2 + |RequestsBytes(topics)|) < WORD
    modifies buf
    ensures rc == if FinalPacketLength(2 + |RequestsBytes(topics)|) > txBufLen then TxBufferTooShort else MqttSuccess
    ensures rc != MqttSuccess ==> buf[..] == old(buf[..])
    ensures rc == MqttSuccess ==>
              var packet := Canonical(SubscribeFrame(dup == 1, packetId, topics));
              len == |packet| <= txBufLen && buf[..len] == packet && buf[..] == Splice(old(buf[..]), 0, packet)
  {
    hide Encode, HeaderByte;
    var remLen := SubscribeRemaining(topics);
    len := 0;
    if FinalPacketLength(remLen) > txBufLen {
      return TxBufferTooShort, len;
    }
    EstimateIsExactUnlessAtBoundary(remLen);
    var header;
    rc, header := InitHeader(SUBSCRIBE, QOS1, dup, 0);
    ghost var start := buf[..];
    ghost var fixed := FixedHeader(header, remLen);
    len := PutFixedHeader(buf, header, remLen, start);
    len := PutUint16(buf, len, packetId, start, fixed);
    ghost var out := fixed + U16(packetId);
    var i := 0;
    while i < |topics|
      invariant i <= |topics|
      invariant out == fixed + U16(packetId) + RequestsBytes(topics[..i])
      invariant len == |out| && Written(buf, start, out)
    {
      RequestsBytesPrefix(topics, i);
      len := PutText(buf, len, topics[i].filter, start, out);
      len := PutByte(buf, len, QosBits(topics[i].qos), start, out + TextBytes(topics[i].filter));
      out := out + TextBytes(topics[i].filter) + [QosBits(topics[i].qos)];
      Regroup(fixed + U16(packetId), RequestsBytes(topics[..i]), TextBytes(topics[i].filter), [QosBits(topics[i].qos)]);
      i := i + 1;
    }
    assert topics[..i] == topics;
    Associate(fixed, U16(packetId), RequestsBytes(topics));
    SpliceStart(start, out);
  }

  lemma Regroup(head: seq<byte>, done: seq<byte>, t: seq<byte>, q: seq<byte>)
    ensures head + done + t + q == head + (done + (t + q))
  {
  }

  /** The first loop of the serialiser: the remaining length before anything is written. */
  method SubscribeRemaining(topics: seq<Request>) returns (remLen: nat)
    ensures remLen == 2 + |RequestsBytes(topics)|
  {
    remLen := 2;
    var i := 0;
    while i < |topics|
      invariant i <= |topics|
      invariant remLen == 2 + |RequestsBytes(topics[..i])|
    {
      RequestsBytesPrefix(topics, i);
      remLen := remLen + |topics[i].filter| + 2 + 1;
      i := i + 1;
    }
    assert topics[..i] == topics;
  }

  method SerializeUnsubscribe(buf: array<byte>, txBufLen: nat, dup: byte, packetId: uint16, filters: seq<Text>)
    returns (rc: Rc, len: nat)
    requires txBufLen <= buf.Length && txBufLen <= LIMIT
    requires FinalPacketLength(2 + |FiltersBytes(filters)|) < WORD
    modifies buf
    ensures rc == if FinalPacketLength(2 + |FiltersBytes(filters)|) > txBufLen then TxBufferTooShort else MqttSuccess
    ensures rc != MqttSuccess ==> buf[..] == old(buf[..])
    ensures rc == MqttSuccess ==>
              var packet := Canonical(UnsubscribeFrame(dup == 1, packetId, filters));
              len == |packet| <= txBufLen && buf[..len] == packet && buf[..] == Splice(old(buf[..]), 0, packet)
  {
    hide Encode, HeaderByte;
    var remLen := UnsubscribeRemaining(filters);
    len := 0;
    if FinalPacketLength(remLen) > txBufLen {
      return TxBufferTooShort, len;
    }
    EstimateIsExactUnlessAtBoundary(remLen);
    var header;
    rc, header := InitHeader(UNSUBSCRIBE, QOS1, dup, 0);
    ghost var start := buf[..];
    ghost var fixed := FixedHeader(header, remLen);
    len := PutFixedHeader(buf, header, remLen, start);
    len := PutUint16(buf, len, packetId, start, fixed);
    ghost var out := fixed + U16(packetId);
    var i := 0;
    while i < |filters|
      invariant i <= |filters|
      invariant out == fixed + U16(packetId) + FiltersBytes(filters[..i])
      invariant len == |out| && Written(buf, start, out)
    {
      FiltersBytesPrefix(filters, i);
      len := PutText(buf, len, filters[i], start, out);
      out := out + TextBytes(filters[i]);
      Associate(fixed + U16(packetId), FiltersBytes(filters[..i]), TextBytes(filters[i]));
      i := i + 1;
    }
    assert filters[..i] == filters;
    Associate(fixed, U16(packetId), FiltersBytes(filters));
    SpliceStart(start, out);
  }

  method UnsubscribeRemaining(filters: seq<Text>) returns (remLen: nat)
    ensures remLen == 2 + |FiltersBytes(filters)|
  {
    remLen := 2;
    var i := 0;
    while i < |filters|
      invariant i <= |filters|
      invariant remLen == 2 + |FiltersBytes(filters[..i])|
    {
      FiltersBytesPrefix(filters, i);
      remLen := remLen + |filters[i]| + 2;
      i := i + 1;
    }
    assert filters[..i] == filters;
  }
}
