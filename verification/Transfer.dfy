/** Messages from one client's serialiser to another client's deserialiser. */
module Transfer {
  import opened Prelude
  import opened RemainingLength
  import opened Wire
  import opened PublishCodec
  import opened Framer

  /** A message the publish call can send: QoS 0 or 1. */
  predicate Sendable(m: Message) {
    IsMessage(m) && m.qos <= 1
  }

  predicate FitsBoth(m: Message, txSize: nat, rxSize: nat)
    requires IsMessage(m)
  {
    && FinalPacketLength(PublishRemaining(m.topic, m.qos > 0, m.payload)) <= txSize
    && |Canonical(PublishFrame(m))| <= rxSize
  }

  function Stream(ms: seq<Message>): (r: seq<byte>)
    requires forall m | m in ms :: IsMessage(m)
  {
    if |ms| == 0 then [] else Canonical(PublishFrame(ms[0])) + Stream(ms[1..])
  }

  function Parsed(outcomes: seq<Outcome>): (r: seq<Option<Message>>)
    ensures |r| == |outcomes|
  {
    if |outcomes| == 0 then []
    else [if outcomes[0].Received? then ParsePublish(outcomes[0].frame) else None] + Parsed(outcomes[1..])
  }

  function Somes(ms: seq<Message>): (r: seq<Option<Message>>)
    ensures |r| == |ms|
  {
    if |ms| == 0 then [] else [Some(ms[0])] + Somes(ms[1..])
  }

  lemma StreamHead(m: Message, rest: seq<byte>, bufSize: nat)
    requires IsMessage(m) && bufSize <= LIMIT && |Canonical(PublishFrame(m))| <= bufSize
    ensures FrameAt(Canonical(PublishFrame(m)) + rest) == Some((PublishFrame(m), rest))
    ensures OutcomeOf(PublishFrame(m), bufSize) == Received(PublishFrame(m))
    ensures HeadIsSafe(Canonical(PublishFrame(m)) + rest, bufSize)
  {
    hide Encode, StreamDecode, PublishFrame, FrameAt, SizeTestWorks;
    var f := PublishFrame(m);
    CanonicalIsWirePacket(f);
    FrameAtWirePacket(WirePacket(f.header, Encode(|f.body|), f.body), rest);
    CanonicalFits(f, bufSize);
    SafeWhenFrameIs(Canonical(f) + rest, bufSize);
  }

  lemma CanonicalFits(f: Frame, bufSize: nat)
    requires |Canonical(f)| <= bufSize
    ensures SizeTestWorks(|f.body|, bufSize) && |f.body| < bufSize
  {
  }

  /** Any list of messages that fit the receive buffer comes out of the framer and the parser as it
      went into the serialiser, and what follows on the stream is left alone. */
  lemma {:induction false} EndToEnd(ms: seq<Message>, rest: seq<byte>, bufSize: nat)
    requires bufSize <= LIMIT
    requires forall m | m in ms :: IsMessage(m) && |Canonical(PublishFrame(m))| <= bufSize
    ensures var (outcomes, left) := Receive(Stream(ms) + rest, bufSize, |ms|);
            Parsed(outcomes) == Somes(ms) && left == rest
    decreases |ms|
  {
    if |ms| == 0 {
      assert Stream(ms) + rest == rest;
    } else {
      var m := ms[0];
      assert m in ms;
      Associate(Canonical(PublishFrame(m)), Stream(ms[1..]), rest);
      StreamHead(m, Stream(ms[1..]) + rest, bufSize);
      PublishThenParse(m);
      EndToEnd(ms[1..], rest, bufSize);
      var (more, left) := Receive(Stream(ms[1..]) + rest, bufSize, |ms| - 1);
      assert ([OutcomeOf(PublishFrame(m), bufSize)] + more)[1..] == more;
    }
  }

  /** The sending side: every message serialised into the same transmit buffer. */
  method SendAll(txBuf: array<byte>, ms: seq<Message>) returns (stream: seq<byte>)
    requires txBuf.Length <= LIMIT
    requires forall m | m in ms :: IsMessage(m)
    requires forall m | m in ms :: m.qos <= 1 &&
              FinalPacketLength(PublishRemaining(m.topic, m.qos > 0, m.payload)) <= txBuf.Length
    modifies txBuf
    ensures stream == Stream(ms)
  {
    stream := [];
    var k := 0;
    assert ms[0..] == ms;
    while k < |ms|
      invariant 0 <= k <= |ms|
      invariant stream + Stream(ms[k..]) == Stream(ms)
    {
      var m := ms[k];
      assert m in ms && ms[k..][0] == m && ms[k..][1..] == ms[k + 1..];
      var qos := if m.qos == 1 then QOS1 else QOS0;
      assert Outgoing(Bit(m.dup), qos, Bit(m.retain), m.id, m.topic, m.payload) == m;
      var rc, len := SerializePublish(txBuf, txBuf.Length, Bit(m.dup), qos, Bit(m.retain), m.id, m.topic, m.payload);
      ghost var packet := Canonical(PublishFrame(m));
      assert txBuf[..len] == txBuf[..][..len] == packet;
      Associate(stream, packet, Stream(ms[k + 1..]));
      stream := stream + txBuf[..len];
      k := k + 1;
    }
  }

  method ReceiveOne(socket: Socket, rxBuf: array<byte>, ghost m: Message, ghost after: seq<byte>)
    returns (message: Message)
    requires socket.reliable && 0 < rxBuf.Length <= LIMIT
    requires IsMessage(m) && |Canonical(PublishFrame(m))| <= rxBuf.Length
    requires socket.pending == Canonical(PublishFrame(m)) + after
    modifies socket, rxBuf
    ensures message == m
    ensures socket.pending == after
  {
    StreamHead(m, after, rxBuf.Length);
    var rc, packetType := ReadPacket(socket, rxBuf, 0);
    assert Canonical(PublishFrame(m)) <= rxBuf[..];
    CanonicalHoldsPacket(rxBuf[..], PublishFrame(m));
    PublishThenParse(m);
    message := ReadMessage(rxBuf, m);
  }

  method ReadMessage(rxBuf: array<byte>, ghost m: Message) returns (message: Message)
    requires IsMessage(m) && HoldsPacket(rxBuf[..]) && rxBuf.Length >= 4
    requires TakeFrame(rxBuf[..]).Some? && TakeFrame(rxBuf[..]).value.0 == PublishFrame(m)
    ensures message == m
  {
    PublishThenParse(m);
    var rc, dup, qos, retain, id, topicAt, topicLen, payloadAt, payloadLen := DeserializePublish(rxBuf);
    message := Message(dup, qos, retain, id, rxBuf[topicAt..topicAt + topicLen],
        rxBuf[payloadAt..payloadAt + payloadLen]);
  }

  /** The receiving side: the framer and the deserialiser, packet by packet. */
  method ReceiveAll(socket: Socket, rxBuf: array<byte>, ghost ms: seq<Message>, count: nat)
    returns (received: seq<Message>)
    requires socket.reliable && 0 < rxBuf.Length <= LIMIT
    requires forall m | m in ms :: IsMessage(m) && |Canonical(PublishFrame(m))| <= rxBuf.Length
    requires socket.pending == Stream(ms) && count == |ms|
    modifies socket, rxBuf
    ensures received == ms
    ensures socket.pending == []
  {
    received := [];
    var k := 0;
    assert ms[0..] == ms;
    while k < count
      invariant 0 <= k <= count
      invariant socket.pending == Stream(ms[k..])
      invariant received == ms[..k]
    {
      ghost var m := ms[k];
      assert m in ms && ms[k..][0] == m && ms[k..][1..] == ms[k + 1..];
      var message := ReceiveOne(socket, rxBuf, m, Stream(ms[k + 1..]));
      received := received + [message];
      k := k + 1;
    }
  }

  /** Serialise, transfer, frame, deserialise: the same list of messages arrives. */
  method TransferAll(txBuf: array<byte>, rxBuf: array<byte>, ms: seq<Message>) returns (received: seq<Message>)
    requires txBuf.Length <= LIMIT && 0 < rxBuf.Length <= LIMIT && txBuf != rxBuf
    requires forall m | m in ms :: Sendable(m) && FitsBoth(m, txBuf.Length, rxBuf.Length)
    modifies txBuf, rxBuf
    ensures received == ms
  {
    var stream := SendAll(txBuf, ms);
    var socket := new Socket(stream, true);
    received := ReceiveAll(socket, rxBuf, ms, |ms|);
  }
}
