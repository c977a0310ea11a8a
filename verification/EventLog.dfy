/** What a client does, in order, and what can be read off such a log. */
module EventLog {
  import opened Prelude
  import opened RemainingLength
  import opened Wire
  import opened PublishCodec
  import opened AckCodec
  import opened SubscribeCodec
  import opened ConnectCodec
  import opened SubscriptionTable
  import opened TopicMatcher
  import opened PacketIds
  import F = Framer

  // ---------- Packets that leave and arrive ----------

  /** The packets this client sends. */
  datatype Outbound =
    | ConnectPacket(options: ConnectOptions)
    | PublishPacket(message: Message)
    | PubackPacket(ackId: uint16)
    | SubscribePacket(subscribeId: uint16, request: Request)
    | UnsubscribePacket(unsubscribeId: uint16, filter: Text)
    | PingReqPacket
    | DisconnectPacket

  predicate IsOutbound(p: Outbound) {
    match p
    case ConnectPacket(o) => o.version == MQTT_3_1_1
    case PublishPacket(m) => IsMessage(m)
    case _ => true
  }

  /** The bytes of a packet, as its serialiser writes them. */
  function WireOf(p: Outbound): (r: seq<byte>)
    requires IsOutbound(p)
  {
    match p
    case ConnectPacket(o) => Canonical(ConnectFrame(o))
    case PublishPacket(m) => Canonical(PublishFrame(m))
    case PubackPacket(id) => Canonical(AckFrame(Ack(PUBACK, false, id)))
    case SubscribePacket(id, r) => Canonical(SubscribeFrame(false, id, [r]))
    case UnsubscribePacket(id, filter) => Canonical(UnsubscribeFrame(false, id, [filter]))
    case PingReqPacket => Canonical(EmptyFrame(PINGREQ))
    case DisconnectPacket => Canonical(EmptyFrame(DISCONNECT))
  }

  /** What the client's own calls send, with an id from its counter, no dup bit and one filter, is read
      back by a broker that keeps to the standard. */
  lemma RequestsAreUnderstood(id: PacketId, r: Request, filter: Text)
    ensures ParseSubscribe(SubscribeFrame(false, id, [r])) == Some((id as uint16, [r]))
    ensures ParseUnsubscribe(UnsubscribeFrame(false, id, [filter])) == Some((id as uint16, [filter]))
  {
    SubscribeRoundTrip(false, id, [r]);
    UnsubscribeRoundTrip(false, id, [filter]);
  }

  /** What an inbound packet means to the client. */
  datatype Inbound =
    | Delivery(message: Message)
    | PingResponse
    | OtherPacket(frame: Frame)

  function InboundOf(f: Frame): (r: Inbound) {
    if TypeOf(f.header) == PINGRESP then PingResponse
    else
      match ParsePublish(f)
      case Some(m) => Delivery(m)
      case None => OtherPacket(f)
  }

  // ---------- Logs ----------

  datatype Event =
    | Opened                            // the socket was opened
    | Closed                            // the socket was closed
    | Accepted                          // a CONNACK accepted the connection
    | Sent(packet: Outbound)            // a packet was written to the socket
    // a packet was read into the receive buffer while the handler table was `table`
    | Received(inbound: Inbound, table: seq<Slot>)
    | AckLost(lostId: uint16)           // a PUBACK that was due could not be sent
    | Ran(slot: nat, handler: nat)      // an application handler was called

  type Log = seq<Event>

  function Last(log: Log): (e: Event)
    requires |log| > 0
  {
    log[|log| - 1]
  }

  function Front(log: Log): (r: Log)
    requires |log| > 0
  {
    log[..|log| - 1]
  }

  // ---------- Exchanges ----------

  /** A packet that answers a request: of the awaited type and well formed; a CONNACK must accept, and
      a SUBACK must not have more return codes than the client has room for. */
  predicate IsReply(packetType: nat, f: Frame) {
    && TypeOf(f.header) == packetType
    && (if packetType == CONNACK then ParseConnack(f) == Some(ConnackAccepted)
        else if packetType == SUBACK then ParseSuback(f).Some? && |ParseSuback(f).value.1| <= 2
        else ParseAck(f).Some?)
  }

  predicate Replied(e: Event, packetType: nat) {
    e.Received? && e.inbound.OtherPacket? && IsReply(packetType, e.inbound.frame)
  }

  /** A request went out first, and the last thing read after it is the awaited reply. */
  ghost predicate Exchanged(before: Log, after: Log, packet: Outbound, reply: nat) {
    && before + [Sent(packet)] <= after && |after| > |before| + 1
    && Replied(Last(after), reply)
  }

  /** What a successful publish leaves in the log: the PUBLISH, and for QoS 1 a PUBACK read after it. */
  ghost predicate Published(before: Log, after: Log, m: Message) {
    if m.qos == 1 then Exchanged(before, after, PublishPacket(m), PUBACK)
    else after == before + [Sent(PublishPacket(m))]
  }

  /** A connection that has been opened, asked for with parameters `o`, and accepted by a CONNACK. */
  ghost predicate Begun(before: Log, after: Log, o: ConnectOptions) {
    && before + [Opened, Sent(ConnectPacket(o))] <= after && |after| >= |before| + 4
    && Replied(Last(Front(after)), CONNACK) && Last(after) == Accepted
  }

  // ---------- Pings ----------

  predicate IsPingResponse(e: Event) {
    e.Received? && e.inbound == PingResponse
  }

  /** The PINGREQs sent since the last PINGRESP or the last accepted connection. */
  function Unanswered(log: Log): (n: nat) {
    if |log| == 0 || IsPingResponse(Last(log)) || Last(log) == Accepted then 0
    else Unanswered(Front(log)) + if Last(log) == Sent(PingReqPacket) then 1 else 0
  }

  // ---------- Acknowledgements ----------

  /** The packet id that an inbound message of QoS above 0 asks to be acknowledged. */
  function OwedFor(inbound: Inbound): (id: Option<uint16>) {
    if inbound.Delivery? && inbound.message.qos > 0 then Some(inbound.message.id) else None
  }

  function Owed(e: Event): (id: Option<uint16>) {
    if e.Received? then OwedFor(e.inbound) else None
  }

  /** The handler calls that a received packet asks for. */
  function Due(e: Event): (calls: Log) {
    if e.Received? && e.inbound.Delivery? then Calls(e.table, e.inbound.message.topic, |e.table|) else []
  }

  function AckSent(e: Event): (id: Option<uint16>) {
    if e.Sent? && e.packet.PubackPacket? then Some(e.packet.ackId) else None
  }

  /** The packet id whose acknowledgement is over, sent or lost. */
  function Settled(e: Event): (id: Option<uint16>) {
    if e.AckLost? then Some(e.lostId) else AckSent(e)
  }

  function OptionSeq(o: Option<uint16>): (r: seq<uint16>) {
    match o case None => [] case Some(x) => [x]
  }

  function OwedIds(log: Log): (r: seq<uint16>) {
    if |log| == 0 then [] else OwedIds(Front(log)) + OptionSeq(Owed(Last(log)))
  }

  function AckedIds(log: Log): (r: seq<uint16>) {
    if |log| == 0 then [] else AckedIds(Front(log)) + OptionSeq(AckSent(Last(log)))
  }

  function SettledIds(log: Log): (r: seq<uint16>) {
    if |log| == 0 then [] else SettledIds(Front(log)) + OptionSeq(Settled(Last(log)))
  }

  /** Where a log stands: nothing is going on; or the last inbound packet is being delivered, with
      `due` handler calls still to come and then `owed` to be acknowledged; or it is out of order. */
  datatype AckState = AtRest | Delivering(owed: Option<uint16>, due: Log) | Broken

  function AckStep(s: AckState, e: Event): (r: AckState) {
    if e.Ran? then (if s.Delivering? && [e] <= s.due then Delivering(s.owed, s.due[1..]) else Broken)
    else if Settled(e).Some? then (if s == Delivering(Settled(e), []) then AtRest else Broken)
    else if !IsOrderly(s) then Broken
    else if e.Received? then Delivering(Owed(e), Due(e))
    else AtRest
  }

  /** No handler call is due and nothing is owed. */
  predicate IsOrderly(s: AckState) {
    s == AtRest || s == Delivering(None, [])
  }

  function AckStateOf(log: Log): (s: AckState) {
    if |log| == 0 then AtRest else AckStep(AckStateOf(Front(log)), Last(log))
  }

  function Pending(s: AckState): (r: seq<uint16>) {
    if s.Delivering? then OptionSeq(s.owed) else []
  }

  lemma {:induction false} OwedIsSettledPlusPending(log: Log)
    requires AckStateOf(log) != Broken
    ensures OwedIds(log) == SettledIds(log) + Pending(AckStateOf(log))
    decreases |log|
  {
    if |log| > 0 {
      OwedIsSettledPlusPending(Front(log));
    }
  }

  lemma {:induction false} AckedIsSettledUnlessLost(log: Log)
    ensures |AckedIds(log)| <= |SettledIds(log)|
    ensures (forall k | 0 <= k < |log| :: !log[k].AckLost?) ==> AckedIds(log) == SettledIds(log)
    ensures (exists k | 0 <= k < |log| :: log[k].AckLost?) ==> |AckedIds(log)| < |SettledIds(log)|
    decreases |log|
  {
    if |log| > 0 {
      var front := Front(log);
      AckedIsSettledUnlessLost(front);
      if k :| 0 <= k < |log| && log[k].AckLost? {
        assert k < |front| ==> front[k].AckLost?;
      } else {
        assert forall k | 0 <= k < |front| :: front[k] == log[k];
      }
    }
  }

  /** In an orderly log the ids acknowledged are those of the QoS 1 messages received, in arrival
      order; the PUBACKs sent are all of them exactly when none was lost. */
  lemma AcksInArrivalOrder(log: Log)
    requires IsOrderly(AckStateOf(log))
    ensures SettledIds(log) == OwedIds(log)
    ensures AckedIds(log) == OwedIds(log) <==> forall k | 0 <= k < |log| :: !log[k].AckLost?
  {
    OwedIsSettledPlusPending(log);
    AckedIsSettledUnlessLost(log);
    assert SettledIds(log) + [] == SettledIds(log);
  }

  /** The packet received at `i` has been delivered: right after it, and in slot order, exactly the
      handlers of the subscriptions that receive it ran, and then its acknowledgement, if one was owed,
      was sent or lost. */
  ghost predicate Delivered(log: Log, i: nat)
    requires i < |log|
  {
    var n := i + 1 + |Due(log[i])|;
    && n <= |log| && log[i + 1..n] == Due(log[i])
    && (Owed(log[i]).Some? ==> n < |log| && Settled(log[n]) == Owed(log[i]))
  }

  ghost predicate InDelivery(log: Log, i: nat, s: AckState)
    requires i < |log|
  {
    s.Delivering? && s.owed == Owed(log[i]) && log[i + 1..] + s.due == Due(log[i])
  }

  lemma DeliveryGoesOn(front: Log, e: Event, i: nat, s: AckState)
    requires i < |front| && InDelivery(front, i, s) && AckStep(s, e) != Broken
    ensures Delivered(front + [e], i) || InDelivery(front + [e], i, AckStep(s, e))
  {
    hide Due, Owed;
    var log, n := front + [e], i + 1 + |Due(front[i])|;
    assert log[i] == front[i] && log[i + 1..] == front[i + 1..] + [e];
    if e.Ran? {
      assert s.due == [e] + s.due[1..];
      assert log[i + 1..] + s.due[1..] == front[i + 1..] + ([e] + s.due[1..]);
    } else {
      assert s.due == [];
      assert front[i + 1..] + [] == front[i + 1..];
      assert n == |front| && log[i + 1..n] == front[i + 1..];
    }
  }

  lemma DeliveredStays(front: Log, e: Event, i: nat)
    requires i < |front| && Delivered(front, i)
    ensures Delivered(front + [e], i)
  {
    hide Due, Owed, Settled;
    var n := i + 1 + |Due(front[i])|;
    assert (front + [e])[i + 1..n] == front[i + 1..n];
  }

  lemma {:induction false} DeliveredOrInDelivery(log: Log, i: nat)
    requires AckStateOf(log) != Broken
    requires i < |log| && log[i].Received?
    ensures Delivered(log, i) || InDelivery(log, i, AckStateOf(log))
    decreases |log|
  {
    hide Due, Owed, Delivered;
    var front, e := Front(log), Last(log);
    if i == |log| - 1 {
      assert log[i + 1..] == [];
      assert [] + Due(e) == Due(e);
    } else {
      hide InDelivery;
      DeliveredOrInDelivery(front, i);
      assert front + [e] == log;
      if Delivered(front, i) {
        DeliveredStays(front, e, i);
      } else {
        DeliveryGoesOn(front, e, i, AckStateOf(front));
      }
    }
  }

  /** In an orderly log every packet received has been delivered. */
  lemma OrderlyMeansDelivered(log: Log, i: nat)
    requires IsOrderly(AckStateOf(log))
    requires i < |log| && log[i].Received?
    ensures Delivered(log, i)
  {
    DeliveredOrInDelivery(log, i);
    if InDelivery(log, i, AckStateOf(log)) {
      assert log[i + 1..] + [] == log[i + 1..];
      assert log[i + 1..i + 1 + |Due(log[i])|] == log[i + 1..];
    }
  }

  /** Every packet received so far has been delivered; and all acknowledgements were owed and in arrival
      order, and none was left out but those lost. */
  ghost predicate AcknowledgedInOrder(log: Log) {
    && (forall i | 0 <= i < |log| && log[i].Received? :: Delivered(log, i))
    && SettledIds(log) == OwedIds(log)
    && (AckedIds(log) == OwedIds(log) <==> forall k | 0 <= k < |log| :: !log[k].AckLost?)
  }

  lemma OrderlyMeansAcknowledged(log: Log)
    requires IsOrderly(AckStateOf(log))
    ensures AcknowledgedInOrder(log)
  {
    hide AckStateOf, Calls, Delivered;
    AcksInArrivalOrder(log);
    forall i | 0 <= i < |log| && log[i].Received? ensures Delivered(log, i) {
      OrderlyMeansDelivered(log, i);
    }
  }

  /** Between a message and its PUBACK an unbroken log holds only handler calls. */
  lemma {:induction false} AckFollowsItsHandlers(log: Log, i: nat)
    requires AckStateOf(log) != Broken
    requires i < |log| && AckSent(log[i]).Some?
    ensures exists j | 0 <= j < i :: Owed(log[j]) == AckSent(log[i]) && (forall k | j < k < i :: log[k].Ran?)
    decreases |log|
  {
    if i == |log| - 1 {
      assert AckStateOf(Front(log)) == Delivering(AckSent(log[i]), []);
      var j := DeliveringSince(Front(log));
      assert forall k | j < k < i :: log[k] == Front(log)[k];
      assert Owed(log[j]) == AckSent(log[i]);
    } else {
      AckFollowsItsHandlers(Front(log), i);
      var j :| 0 <= j < i && Owed(Front(log)[j]) == AckSent(Front(log)[i]) &&
          (forall k | j < k < i :: Front(log)[k].Ran?);
      forall k | j < k < i ensures log[k].Ran? {
        assert log[k] == Front(log)[k];
      }
    }
  }

  lemma {:induction false} DeliveringSince(log: Log) returns (j: nat)
    requires AckStateOf(log).Delivering? && AckStateOf(log).owed.Some?
    ensures j < |log| && Owed(log[j]) == AckStateOf(log).owed
    ensures forall k | j < k < |log| :: log[k].Ran?
    decreases |log|
  {
    if Last(log).Received? {
      j := |log| - 1;
    } else {
      assert Last(log).Ran?;
      j := DeliveringSince(Front(log));
      forall k | j < k < |log| ensures log[k].Ran? {
        if k < |log| - 1 {
          assert log[k] == Front(log)[k];
        }
      }
    }
  }

  /** No handler runs between a PUBACK and the next inbound packet. */
  lemma {:induction false} NoHandlerAfterAck(log: Log, i: nat, j: nat)
    requires AckStateOf(log) != Broken
    requires i < j < |log| && AckSent(log[i]).Some? && log[j].Ran?
    ensures exists k | i < k < j :: log[k].Received?
    decreases |log|
  {
    if j == |log| - 1 {
      var k := LastReceived(Front(log));
      assert log[i] == Front(log)[i];
      assert log[k] == Front(log)[k];
    } else {
      NoHandlerAfterAck(Front(log), i, j);
      var k :| i < k < j && Front(log)[k].Received?;
      assert log[k] == Front(log)[k];
    }
  }

  lemma {:induction false} LastReceived(log: Log) returns (k: nat)
    requires AckStateOf(log).Delivering?
    ensures k < |log| && log[k].Received?
    ensures forall i | k < i < |log| :: AckSent(log[i]).None?
    decreases |log|
  {
    if Last(log).Received? {
      k := |log| - 1;
    } else {
      k := LastReceived(Front(log));
      forall i | k < i < |log| ensures AckSent(log[i]).None? {
        if i < |log| - 1 {
          assert log[i] == Front(log)[i];
        }
      }
    }
  }

  // ---------- Subscriptions asked for ----------

  function Asked(e: Event): (r: seq<Request>) {
    if e.Sent? && e.packet.SubscribePacket? then [e.packet.request] else []
  }

  /** The requests of all SUBSCRIBE packets sent, in order. */
  function AskedFor(log: Log): (r: seq<Request>) {
    if |log| == 0 then [] else AskedFor(Front(log)) + Asked(Last(log))
  }

  // ---------- Handlers that a message calls ----------

  /** A subscription receives a message when the topic equals its filter or matches it. */
  predicate Receives(s: Subscription, topic: seq<byte>) {
    topic == s.filter || Greedy(s.filter, topic)
  }

  /** The handler calls for `topic` in the slots below `n`, in slot order. */
  function Calls(t: seq<Slot>, topic: seq<byte>, n: nat): (r: Log)
    requires n <= |t|
  {
    if n == 0 then []
    else Calls(t, topic, n - 1) + CallOf(t, topic, n - 1)
  }

  function CallOf(t: seq<Slot>, topic: seq<byte>, i: nat): (r: Log)
    requires i < |t|
  {
    if t[i].Some? && Receives(t[i].value, topic) then [Ran(i, t[i].value.handler)] else []
  }

  /** A message calls exactly the handlers of the slots that receive it, each once, in slot order. */
  lemma {:induction false} CallsAreTheReceivingSlots(t: seq<Slot>, topic: seq<byte>, n: nat)
    requires n <= |t|
    ensures forall i: nat, h: nat :: Ran(i, h) in Calls(t, topic, n)
                           <==> i < n && t[i].Some? && t[i].value.handler == h && Receives(t[i].value, topic)
    ensures forall k | 0 <= k < |Calls(t, topic, n)| :: Calls(t, topic, n)[k].Ran?
    ensures forall j, k | 0 <= j < k < |Calls(t, topic, n)| :: Calls(t, topic, n)[j].slot < Calls(t, topic, n)[k].slot
    decreases n
  {
    if n > 0 {
      CallsAreTheReceivingSlots(t, topic, n - 1);
      var before, more := Calls(t, topic, n - 1), CallOf(t, topic, n - 1);
      var after := before + more;
      forall k | 0 <= k < |before| ensures before[k].slot < n - 1 {
        assert before[k] in before;
        assert before[k] == Ran(before[k].slot, before[k].handler);
      }
      forall i: nat, h: nat
        ensures Ran(i, h) in after <==> i < n && t[i].Some? && t[i].value.handler == h && Receives(t[i].value, topic)
      {
        assert Ran(i, h) in after <==> Ran(i, h) in before || Ran(i, h) in more;
      }
    }
  }

  lemma {:induction false} CallsPrefix(t: seq<Slot>, topic: seq<byte>, i: nat, n: nat)
    requires i <= n <= |t|
    ensures Calls(t, topic, i) <= Calls(t, topic, n)
    decreases n - i
  {
    if i < n {
      CallsPrefix(t, topic, i, n - 1);
    }
  }

  /** The next slot's calls come first among those that remain. */
  lemma NextCall(t: seq<Slot>, topic: seq<byte>, i: nat, due: Log)
    requires i < |t| && Calls(t, topic, i) + due == Calls(t, topic, |t|)
    ensures CallOf(t, topic, i) <= due
    ensures Calls(t, topic, i + 1) + due[|CallOf(t, topic, i)|..] == Calls(t, topic, |t|)
  {
    CallsPrefix(t, topic, i + 1, |t|);
    var now, next := Calls(t, topic, i), CallOf(t, topic, i);
    assert Calls(t, topic, i + 1) == now + next;
    assert due == Calls(t, topic, |t|)[|now|..];
    assert next == (now + next)[|now|..] == due[..|next|];
  }

  // ---------- Packets received ----------

  /** What was received, in order. */
  function InboundsOf(log: Log): (r: seq<Inbound>) {
    if |log| == 0 then []
    else if Last(log).Received? then InboundsOf(Front(log)) + [Last(log).inbound]
    else InboundsOf(Front(log))
  }

  /** The packet ids that a list of inbound packets asks to be acknowledged. */
  function OwedForAll(ins: seq<Inbound>): (r: seq<uint16>) {
    if |ins| == 0 then [] else OwedForAll(ins[..|ins| - 1]) + OptionSeq(OwedFor(ins[|ins| - 1]))
  }

  lemma {:induction false} OwedIdsAreOfInbounds(log: Log)
    ensures OwedIds(log) == OwedForAll(InboundsOf(log))
    decreases |log|
  {
    if |log| > 0 {
      OwedIdsAreOfInbounds(Front(log));
      var before := InboundsOf(Front(log));
      if Last(log).Received? {
        assert (before + [Last(log).inbound])[..|before|] == before;
      }
    }
  }

  /** The packets of a stream, as the client reads them. */
  function StreamInbounds(ps: seq<F.WirePacket>): (r: seq<Inbound>)
    ensures |r| == |ps|
  {
    seq(|ps|, i requires 0 <= i < |ps| => InboundOf(Frame(ps[i].header, ps[i].body)))
  }

  /** A stream of packets of which `k` have been read, with the bytes still to come and what was read. */
  ghost predicate StreamAt(ps: seq<F.WirePacket>, k: nat, incoming: seq<byte>, received: seq<Inbound>) {
    k <= |ps| && incoming == F.Concat(ps[k..]) && received == StreamInbounds(ps[..k])
  }

  // ---------- Everything at once ----------

  /** The readings above, kept up to date event by event; and the number of PINGRESPs. */
  datatype Digest = Digest(unanswered: nat, pingResps: nat, acks: AckState, asked: seq<Request>, received: seq<Inbound>)

  const NOTHING_SEEN: Digest := Digest(0, 0, AtRest, [], [])

  function Step(d: Digest, e: Event): (r: Digest) {
    Digest(if IsPingResponse(e) || e == Accepted then 0
           else d.unanswered + if e == Sent(PingReqPacket) then 1 else 0,
           d.pingResps + if IsPingResponse(e) then 1 else 0,
           AckStep(d.acks, e),
           d.asked + Asked(e),
           if e.Received? then d.received + [e.inbound] else d.received)
  }

  function DigestOf(log: Log): (d: Digest) {
    if |log| == 0 then NOTHING_SEEN else Step(DigestOf(Front(log)), Last(log))
  }

  lemma Extend(log: Log, e: Event)
    ensures DigestOf(log + [e]) == Step(DigestOf(log), e)
  {
    assert Front(log + [e]) == log && Last(log + [e]) == e;
  }

  lemma {:induction false} DigestReads(log: Log)
    ensures DigestOf(log).unanswered == Unanswered(log)
    ensures DigestOf(log).acks == AckStateOf(log)
    ensures DigestOf(log).asked == AskedFor(log)
    ensures DigestOf(log).received == InboundsOf(log)
    decreases |log|
  {
    if |log| > 0 {
      DigestReads(Front(log));
    }
  }
}
