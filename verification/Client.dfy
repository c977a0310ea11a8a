/** The client: its state machine, blocking waits, keep-alive, reconnect engine and handler table.
    Network results and the passing of time are chosen by an adversary. */
module Client {
  import opened Prelude
  import opened RemainingLength
  import opened Wire
  import opened PublishCodec
  import opened AckCodec
  import opened SubscribeCodec
  import opened ConnectCodec
  import opened TopicMatcher
  import opened SubscriptionTable
  import opened PacketIds
  import opened Backoff
  import opened KeepAlive
  import opened EventLog
  import opened ClientStates
  import Framer

  /** A payload whose length, with any topic, leaves the 32-bit length computation without overflow. */
  type Payload = s: seq<byte> | |s| < 0xFFFE_0000 witness []

  datatype PublishParams = PublishParams(qos: QoS, isRetained: byte, payload: Payload)

  /** A packet the network can deliver into a buffer of `size` bytes. */
  predicate Deliverable(f: Frame, size: nat) {
    |f.body| < LIMIT && |Canonical(f)| <= size && (TypeOf(f.header) == PUBLISH ==> IdPresent(f))
  }

  /** A stream whose first packet, if it is a PUBLISH, has room for the id it promises. */
  predicate HeadIsWhole(stream: seq<byte>) {
    match Framer.FrameAt(stream)
    case None => true
    case Some((f, rest)) => TypeOf(f.header) == PUBLISH ==> IdPresent(f)
  }

  /** Packets that a receive buffer of `size` bytes takes, each with room for the id it promises. */
  predicate Fitting(ps: seq<Framer.WirePacket>, size: nat) {
    forall p | p in ps ::
      && Framer.IsWirePacket(p) && |p.body| < size && Framer.SizeTestWorks(|p.body|, size)
      && (TypeOf(p.header) == PUBLISH ==> IdPresent(Frame(p.header, p.body)))
  }

  /** What the framer finds next on a stream of fitting packets: the next packet, or nothing. */
  lemma NextOnStream(ps: seq<Framer.WirePacket>, k: nat, incoming: seq<byte>, received: seq<Inbound>, size: nat)
    requires StreamAt(ps, k, incoming, received) && Fitting(ps, size)
    ensures Framer.HeadIsSafe(incoming, size) && HeadIsWhole(incoming)
    ensures incoming != [] ==>
              match Framer.FrameAt(incoming)
              case None => false
              case Some((f, rest)) =>
                && Framer.OutcomeOf(f, size) == Framer.Received(f)
                && StreamAt(ps, k + 1, rest, received + [InboundOf(f)])
  {
    hide InboundOf, Framer.FrameAt, Framer.SizeTestWorks, Encode, IdPresent;
    if k < |ps| {
      var p, rest := ps[k], Framer.Concat(ps[k + 1..]);
      assert p in ps && ps[k..][0] == p && ps[k..][1..] == ps[k + 1..];
      Framer.FrameAtWirePacket(p, rest);
      Framer.SafeWhenFrameIs(incoming, size);
      assert ps[..k + 1] == ps[..k] + [p];
      assert StreamInbounds(ps[..k + 1]) == StreamInbounds(ps[..k]) + [InboundOf(Frame(p.header, p.body))];
    } else {
      NothingArrives(size);
    }
  }

  lemma NothingArrives(size: nat)
    ensures Framer.HeadIsSafe([], size) && HeadIsWhole([])
  {
  }

  /** What a cooperative broker sends after a packet with this header: an accepting CONNACK after a
      CONNECT, a SUBACK after a SUBSCRIBE if it grants subscriptions, and a PINGRESP otherwise. */
  function ReplyTo(header: byte, grants: bool): (f: Frame) {
    if TypeOf(header) == CONNECT then Frame(HeaderByte(CONNACK, false, 0, false), [0, 0])
    else if TypeOf(header) == SUBSCRIBE && grants then Frame(HeaderByte(SUBACK, false, 0, false), [0, 1, 0])
    else Frame(HeaderByte(PINGRESP, false, 0, false), [])
  }

  lemma ReplyIsSmall(header: byte, grants: bool)
    ensures |ReplyTo(header, grants).body| <= 3
    ensures TypeOf(ReplyTo(header, grants).header) ==
              if TypeOf(header) == CONNECT then CONNACK
              else if TypeOf(header) == SUBSCRIBE && grants then SUBACK else PINGRESP
  {
    hide HeaderByte, TypeOf, DupOf, QosOf, RetainOf;
    HeaderFields(CONNACK, false, 0, false);
    HeaderFields(SUBACK, false, 0, false);
    HeaderFields(PINGRESP, false, 0, false);
  }

  lemma ReplyArrives(header: byte, grants: bool, size: nat)
    requires 5 <= size <= LIMIT
    ensures var stream := Canonical(ReplyTo(header, grants));
            && Framer.FrameAt(stream) == Some((ReplyTo(header, grants), []))
            && Framer.HeadIsSafe(stream, size) && HeadIsWhole(stream)
  {
    hide Encode, Framer.FrameAt, Framer.HeadIsSafe, ReplyTo;
    var f := ReplyTo(header, grants);
    ReplyIsSmall(header, grants);
    Framer.CanonicalIsWirePacket(f);
    Framer.FrameAtWirePacket(Framer.WirePacket(f.header, Encode(|f.body|), f.body), []);
    assert Canonical(f) + [] == Canonical(f);
    EncodedSize(|f.body|);
    Framer.SafeWhenFrameIs(Canonical(f), size);
  }

  /** The calls a message handler may make: everything but init and disconnect. */
  datatype Call =
    | CallPublish(topic: Text, params: PublishParams)
    | CallSubscribe(subscription: Subscription)
    | CallUnsubscribe(filter: Text)
    | CallResubscribe
    | CallYield(timeoutMs: nat)
    | CallConnect(newOptions: Option<ConnectOptions>)
    | CallAttemptReconnect
    | CallSetConnectParams(connectParams: ConnectOptions)
    | CallSetAutoReconnect(status: bool)

  class MqttClient {
    const writeBuf: array<byte>
    const readBuf: array<byte>
    const handlers: array<Slot>
    const minWait: nat
    const maxWait: nat
    const commandTimeoutMs: nat
    /** Whether the network takes every connection and write at once, reads take a microsecond, nothing
        else takes time, and a broker answers as `ReplyTo` says. */
    const cooperative: bool
    /** On a network that can be relied on to deliver: the packets that arrive, over all connections. */
    const packets: Option<seq<Framer.WirePacket>>

    var clientState: ClientState
    var isPingOutstanding: bool
    var isAutoReconnectEnabled: bool
    var nextPacketId: PacketId
    var keepAliveInterval: uint16
    var options: ConnectOptions
    var currentReconnectWaitInterval: nat
    var counterNetworkDisconnected: nat
    var pingTimer: nat
    var reconnectDelayTimer: nat

    // The platform: a clock in microseconds that never goes back, and a socket.
    var clock: nat
    var socketOpen: bool
    var incoming: seq<byte>
    var grants: bool                    // whether a cooperative broker grants subscriptions

    // History, for specification only.
    ghost var log: Log                  // what others can see
    ghost var seen: Digest              // what can be read off it
    ghost var ids: seq<PacketId>        // packet ids handed out
    ghost var armed: bool               // a disconnect noticed by yield has started a back-off
    ghost var disconnectedAt: nat       // when the latest one was noticed
    ghost var rounds: nat               // failed reconnect rounds since then
    ghost var silence: Silence          // keep-alive checks since the last sign of life
    ghost var watching: bool            // a connection was accepted, and none has been begun since
    ghost var consumed: nat             // packets of the reliable network read so far
    ghost var reentries: nat            // handler runs that called back into the client
    ghost var tableEdits: nat           // completed changes of the handler table
    ghost var beforeEdit: seq<Slot>     // the table just before the latest change

    // ---------- Invariants ----------

    /** Sizes and limits fixed at initialisation; the configured buffers have 2248 bytes. */
    ghost predicate Valid() {
      && writeBuf != readBuf
      && 5 <= writeBuf.Length <= LIMIT
      && 5 <= readBuf.Length <= LIMIT
      && 0 < minWait <= maxWait
      && 2 * maxWait < WORD
      && (packets.Some? ==> !cooperative && Fitting(packets.value, readBuf.Length))
    }

    /** The digest is that of the log, packet ids follow the counter, and counters have 32 bits. */
    ghost predicate Core()
      reads `seen, `log, `ids, `nextPacketId, `currentReconnectWaitInterval, `counterNetworkDisconnected
    {
      && seen == DigestOf(log)
      && FollowsCounter(ids, nextPacketId)
      && currentReconnectWaitInterval < WORD
      && counterNetworkDisconnected < WORD
    }

    ghost function WatchNow(): Watch
      reads `pingTimer, `isPingOutstanding
    {
      Watch(pingTimer, isPingOutstanding)
    }

    /** At most one ping is unanswered, and the flag says whether there is one; the keep-alive checks
        since the last sign of life have led to the present ping timer and flag. */
    ghost predicate PingInv()
      reads `seen, `isPingOutstanding, `watching, `silence, `pingTimer, `keepAliveInterval
    {
      && seen.unanswered == Bit(isPingOutstanding)
      && (watching ==> Follows(silence, WatchNow(), 1000000 * keepAliveInterval))
    }

    /** On a reliable network what was received are the packets read so far, and the others are still
        to come. */
    ghost predicate StreamInv()
      reads `consumed, `incoming, `seen
    {
      packets.Some? ==> StreamAt(packets.value, consumed, incoming, seen.received)
    }

    ghost predicate Inv()
      reads `seen, `log, `ids, `nextPacketId, `currentReconnectWaitInterval, `counterNetworkDisconnected,
            `isPingOutstanding, `watching, `silence, `pingTimer, `keepAliveInterval, `consumed, `incoming
    {
      Core() && PingInv() && StreamInv()
    }

    /** As long as no handler has called back, acknowledgements are in order. */
    ghost predicate AckInv()
      reads `reentries, `seen
    {
      reentries == 0 ==> IsOrderly(seen.acks)
    }

    /** What holds between two top-level calls. */
    ghost predicate Stable()
      reads this
    {
      && Inv() && AckInv()
      && AtRestState(clientState)
      && (IsConnected(clientState) <==> socketOpen)
      && (socketOpen ==> watching)
    }

    /** Where the application may call: between calls, or in a message handler. */
    ghost predicate Callable()
      reads this
    {
      Stable() || (Inv() && AckInv() && clientState == WaitForCbReturn && socketOpen)
    }

    /** What a client at rest has done so far, read off its log: at most one ping is unanswered; the
        k-th packet id handed out is k mod 65535 plus 1; and, unless a handler has called back, every
        packet has been delivered and acknowledged in arrival order. On a reliable network that is the
        order of the packets in the stream. */
    lemma HistoryAtRest()
      requires Inv() && AckInv()
      ensures Unanswered(log) == Bit(isPingOutstanding) <= 1
      ensures forall k | 0 <= k < |ids| :: ids[k] == IdAfter(k + 1)
      ensures reentries == 0 ==> AcknowledgedInOrder(log)
      ensures packets.Some? ==>
                && consumed <= |packets.value| && incoming == Framer.Concat(packets.value[consumed..])
                && InboundsOf(log) == StreamInbounds(packets.value[..consumed])
                && OwedIds(log) == OwedForAll(StreamInbounds(packets.value[..consumed]))
    {
      DigestReads(log);
      IdsAreIdAfter(ids, nextPacketId);
      OwedIdsAreOfInbounds(log);
      if reentries == 0 {
        OrderlyMeansAcknowledged(log);
      }
    }

    // ---------- What calls keep ----------

    /** Histories only grow, time does not go back, and the table changes only by recorded edits. */
    twostate predicate Growth()
      reads `log, `ids, `clock, `reentries, `grants, `tableEdits, handlers
    {
      && old(log) <= log && old(ids) <= ids
      && old(clock) <= clock
      && old(reentries) <= reentries && grants == old(grants)
      && old(tableEdits) <= tableEdits
      && (tableEdits == old(tableEdits) ==> handlers[..] == old(handlers[..]))
    }

    /** Calls other than subscribe and unsubscribe leave the table alone unless a handler calls back. */
    twostate predicate Progress()
      reads `log, `ids, `clock, `reentries, `grants, `tableEdits, handlers
    {
      Growth() && (reentries == old(reentries) ==> tableEdits == old(tableEdits))
    }

    /** The application's settings are as before. */
    twostate predicate SettingsKept()
      reads `options, `isAutoReconnectEnabled
    {
      options == old(options) && isAutoReconnectEnabled == old(isAutoReconnectEnabled)
    }

    /** No handler calls back when none may, or when there is none. */
    twostate predicate NoCallBack(nesting: nat)
      reads `reentries
    {
      nesting == 0 || HasNoHandler(old(handlers[..])) ==> reentries == old(reentries)
    }

    /** No handler calls back when none may, when there is none, or when no message arrives. */
    twostate predicate Undisturbed(nesting: nat)
      reads `reentries
    {
      cooperative || nesting == 0 || HasNoHandler(old(handlers[..])) ==> reentries == old(reentries)
    }

    twostate predicate BackoffKept()
      reads `currentReconnectWaitInterval, `reconnectDelayTimer, `counterNetworkDisconnected,
            `armed, `disconnectedAt, `rounds
    {
      && currentReconnectWaitInterval == old(currentReconnectWaitInterval)
      && reconnectDelayTimer == old(reconnectDelayTimer)
      && counterNetworkDisconnected == old(counterNetworkDisconnected)
      && armed == old(armed) && disconnectedAt == old(disconnectedAt) && rounds == old(rounds)
    }

    /** Without a PINGRESP the ping timer and flag stay as they are. */
    twostate predicate PingKept()
      reads `seen, `pingTimer, `isPingOutstanding, `silence
    {
      && old(seen).pingResps <= seen.pingResps
      && (old(seen).pingResps == seen.pingResps ==> WatchNow() == old(WatchNow()) && silence == old(silence))
    }

    /** The bracket around every wait and every handler: state and socket are as before. */
    twostate predicate Bracketed()
      reads `log, `ids, `clock, `reentries, `grants, `tableEdits, handlers,
            `currentReconnectWaitInterval, `reconnectDelayTimer, `counterNetworkDisconnected,
            `armed, `disconnectedAt, `rounds,
            `seen, `pingTimer, `isPingOutstanding, `silence,
            `clientState, `socketOpen, `keepAliveInterval, `watching
    {
      && Growth() && BackoffKept() && PingKept()
      && clientState == old(clientState)
      && socketOpen == old(socketOpen)
      && keepAliveInterval == old(keepAliveInterval)
      && watching == old(watching)
    }

    /** A refused call changes nothing at all. */
    twostate predicate Untouched()
      reads this, handlers, readBuf, writeBuf
    {
      unchanged(this) && unchanged(handlers) && unchanged(readBuf) && unchanged(writeBuf)
    }

    // ---------- Initialisation ----------

    constructor (txSize: nat, rxSize: nat, slots: nat, minWait: nat, maxWait: nat, commandTimeoutMs: nat,
                 autoReconnect: bool, staleInterval: nat, now: nat, cooperative: bool,
                 packets: Option<seq<Framer.WirePacket>>)
      requires 5 <= txSize <= LIMIT && 5 <= rxSize <= LIMIT
      requires 0 < minWait <= maxWait && 2 * maxWait < WORD && staleInterval < WORD
      requires packets.Some? ==> !cooperative && Fitting(packets.value, rxSize)
      ensures Valid() && Stable()
      ensures clientState == Initialized && !socketOpen && !isPingOutstanding
      ensures isAutoReconnectEnabled == autoReconnect && !grants
      ensures currentReconnectWaitInterval == staleInterval && reconnectDelayTimer == 0
      ensures handlers.Length == slots && handlers[..] == seq(slots, _ => None)
      ensures nextPacketId == 1 && ids == [] && log == [] && !armed && reentries == 0
      ensures fresh(writeBuf) && fresh(readBuf) && fresh(handlers)
      ensures this.minWait == minWait && this.maxWait == maxWait
      ensures writeBuf.Length == txSize && readBuf.Length == rxSize && options == DEFAULT_OPTIONS
      ensures this.commandTimeoutMs == commandTimeoutMs && this.cooperative == cooperative && this.packets == packets
    {
      var none: Slot := None;
      handlers := new Slot[slots](_ => none);
      writeBuf := new byte[txSize](_ => 0);
      readBuf := new byte[rxSize](_ => 0);
      this.minWait, this.maxWait, this.commandTimeoutMs := minWait, maxWait, commandTimeoutMs;
      this.cooperative, this.packets := cooperative, packets;
      incoming := if packets.Some? then Framer.Concat(packets.value) else [];
      consumed := 0;
      nextPacketId := 1;
      options := DEFAULT_OPTIONS;
      keepAliveInterval := 0;
      isPingOutstanding := false;
      isAutoReconnectEnabled := autoReconnect;
      // the source leaves the interval as it finds it
      currentReconnectWaitInterval := staleInterval;
      counterNetworkDisconnected := 0;
      pingTimer, reconnectDelayTimer := 0, 0;
      clock, socketOpen, grants := now, false, false;
      clientState := Initialized;
      log, ids, seen := [], [], NOTHING_SEEN;
      armed, disconnectedAt, rounds := false, 0, 0;
      silence, watching := Begin(0, 0), false;
      reentries := 0;
      tableEdits, beforeEdit := 0, [];
    }

    // ---------- Small steps ----------

    ghost method Record(e: Event)
      modifies `log, `seen
      ensures log == old(log) + [e] && seen == Step(old(seen), e)
      ensures old(seen == DigestOf(log)) ==> seen == DigestOf(log)
      ensures !e.Received? ==> seen.received == old(seen).received
    {
      Extend(log, e);
      log, seen := log + [e], Step(seen, e);
    }

    /** Time passes. */
    method Elapse()
      modifies `clock
      ensures clock > old(clock)
      ensures cooperative ==> clock == old(clock) + 1
    {
      var d: nat := 1;
      if !cooperative {
        d :| d > 0;
      }
      clock := clock + d;
    }

    method HasTimerExpired(timer: nat) returns (expired: bool)
      modifies `clock
      ensures clock >= old(clock)
      ensures expired <==> clock >= timer
      ensures cooperative ==> clock == old(clock)
    {
      if !cooperative {
        var later: nat :| later >= clock;
        clock := later;
      }
      expired := clock >= timer;
    }

    /** The compare-and-set every state change goes through. */
    method SetClientState(expected: ClientState, newState: ClientState) returns (rc: Rc)
      modifies `clientState
      ensures rc == if old(clientState) == expected then MqttSuccess else UnexpectedClientState
      ensures clientState == if old(clientState) == expected then newState else old(clientState)
    {
      if clientState == expected {
        clientState := newState;
        rc := MqttSuccess;
      } else {
        rc := UnexpectedClientState;
      }
    }

    method GetNextPacketId() returns (id: PacketId)
      requires Core()
      modifies `nextPacketId, `ids
      ensures Core()
      ensures ids == old(ids) + [id] && id == nextPacketId == NextId(old(nextPacketId))
    {
      HandOut(ids, nextPacketId);
      id := if nextPacketId == MAX_PACKET_ID then 1 else nextPacketId + 1;
      nextPacketId := id;
      ids := ids + [id];
    }

    /** Writes the first `length` bytes of the transmit buffer, which hold `packet`. */
    method SendPacket(length: nat, timer: nat, ghost packet: Outbound) returns (rc: Rc)
      requires Core()
      requires IsOutbound(packet) && 0 < length <= writeBuf.Length && writeBuf[..length] == WireOf(packet)
      modifies `log, `seen, `clock
      ensures Core() && clock >= old(clock)
      ensures rc == MqttSuccess || rc == MqttFailure || rc == TxBufferTooShort
      ensures rc == TxBufferTooShort <==> length >= writeBuf.Length
      ensures rc == MqttSuccess ==> log == old(log) + [Sent(packet)] && seen == Step(old(seen), Sent(packet))
      ensures rc != MqttSuccess ==> log == old(log) && seen == old(seen)
      ensures cooperative ==> clock == old(clock)
      ensures cooperative && length < writeBuf.Length && old(clock) < timer ==> rc == MqttSuccess
    {
      hide FollowsCounter, Follows, StreamAt, HasNoHandler, IsReply, DigestOf, InboundOf, WireOf;
      if length >= writeBuf.Length {
        return TxBufferTooShort;
      }
      var sent := 0;
      var expired := HasTimerExpired(timer);
      while sent < length && !expired
        invariant Core() && clock >= old(clock)
        invariant sent == 0 || sent == length
        invariant sent == 0 ==> log == old(log) && seen == old(seen)
        invariant sent == length ==> log == old(log) + [Sent(packet)] && seen == Step(old(seen), Sent(packet))
        invariant cooperative ==> clock == old(clock)
        invariant cooperative && old(clock) < timer ==> !expired
        decreases length - sent
      {
        var ok := Write();
        if !ok {
          break;
        }
        // a successful write has sent everything it was given
        sent := sent + length;
        Record(Sent(packet));
        expired := HasTimerExpired(timer);
      }
      rc := if sent == length then MqttSuccess else MqttFailure;
    }

    /** One write to the socket, which takes time and may fail. */
    method Write() returns (ok: bool)
      modifies `clock
      ensures clock >= old(clock)
      ensures cooperative ==> ok && clock == old(clock)
    {
      ok := true;
      if !cooperative {
        var later: nat :| later >= clock;
        clock := later;
        ok := *;
      }
    }

    method OpenSocket() returns (rc: Rc)
      requires Inv() && AckInv()
      modifies `socketOpen, `clock, `log, `seen
      ensures Inv() && AckInv() && clock >= old(clock) && seen.pingResps == old(seen).pingResps &&
                seen.asked == old(seen).asked
      ensures rc == MqttSuccess ==> socketOpen && log == old(log) + [Opened]
      ensures cooperative ==> rc == MqttSuccess && clock == old(clock) + 1
      ensures rc != MqttSuccess ==> socketOpen == old(socketOpen) && log == old(log) && seen == old(seen)
    {
      hide FollowsCounter, Follows, StreamAt, HasNoHandler, IsReply, DigestOf, InboundOf, WireOf;
      Elapse();
      var ok: bool := *;
      var tls: bool := *;
      if !ok && !cooperative {
        return if tls then SslConnectionError else TcpConnectionError;
      }
      socketOpen := true;
      Record(Opened);
      rc := MqttSuccess;
    }

    method CloseSocket()
      requires Inv() && AckInv()
      modifies `socketOpen, `log, `seen
      ensures Inv() && AckInv() && !socketOpen
      ensures log == old(log) + [Closed] && seen.pingResps == old(seen).pingResps && seen.asked == old(seen).asked
    {
      hide FollowsCounter, Follows, StreamAt, HasNoHandler, IsReply, DigestOf, InboundOf, WireOf;
      socketOpen := false;
      Record(Closed);
    }

    /** The bytes that arrive next: whatever the network likes, except that the size test of the framer
        is right for the first packet, and that a PUBLISH has room for the id it promises. A cooperative
        network delivers the reply to the packet sent last. */
    method Arriving() returns (stream: seq<byte>)
      requires Valid()
      ensures Framer.HeadIsSafe(stream, readBuf.Length) && HeadIsWhole(stream)
      ensures cooperative ==> Framer.FrameAt(stream) == Some((ReplyTo(writeBuf[0], grants), []))
    {
      if cooperative {
        ReplyArrives(writeBuf[0], grants, readBuf.Length);
        stream := Canonical(ReplyTo(writeBuf[0], grants));
      } else {
        assert Framer.HeadIsSafe([], readBuf.Length) && HeadIsWhole([]);
        stream :| Framer.HeadIsSafe(stream, readBuf.Length) && HeadIsWhole(stream);
      }
    }

    /** A packet of a reliable network has been read and is about to be recorded. */
    ghost predicate StreamWith(packet: Frame)
      reads this
    {
      packets.Some? ==> StreamAt(packets.value, consumed + 1, incoming, seen.received + [InboundOf(packet)])
    }

    /** Reads one packet with the framer: on success the buffer starts with the packet in its shortest
        form. `lastType` is the caller's variable, set only on success. */
    method ReadPacket(lastType: nat) returns (rc: Rc, packetType: nat, ghost packet: Frame)
      requires Valid() && StreamInv()
      modifies `clock, `incoming, readBuf
      ensures clock > old(clock)
      ensures Framer.IsReadPacketResult(rc)
      ensures rc != MqttSuccess ==> packetType == lastType && StreamInv()
      ensures rc == MqttSuccess ==>
                && Deliverable(packet, readBuf.Length)
                && Canonical(packet) <= readBuf[..]
                && packetType == TypeOf(packet.header)
                && StreamWith(packet)
      ensures cooperative ==> rc == MqttSuccess && clock == old(clock) + 1 && packet == ReplyTo(writeBuf[0], grants)
    {
      hide Encode, Framer.HeadIsSafe, Framer.FrameAt, ReplyTo, StreamAt, InboundOf, Fitting;
      Elapse();
      if packets.None? {
        incoming := Arriving();
      } else {
        NextOnStream(packets.value, consumed, incoming, seen.received, readBuf.Length);
      }
      ghost var head := Framer.FrameAt(incoming);
      var socket := new Framer.Socket(incoming, cooperative || packets.Some?);
      rc, packetType := Framer.ReadPacket(socket, readBuf, lastType);
      incoming := socket.pending;
      packet := if head.Some? then head.value.0 else Frame(0, []);
      ReplyIsSmall(writeBuf[0], grants);
    }

    // ---------- Inbound messages ----------

    /** A message is being delivered and the calls of the slots from `i` on are due. */
    ghost predicate Awaits(t: seq<Slot>, topic: seq<byte>, i: nat)
      reads this
      requires i <= |t|
    {
      seen.acks.Delivering? && Calls(t, topic, i) + seen.acks.due == Calls(t, topic, |t|)
    }

    /** Runs the handlers of the matching slots, in slot order, with the client in the state that
        refuses a nested yield. */
    method DeliverMessage(topicAt: nat, topicLen: nat, nesting: nat) returns (rc: Rc)
      requires Valid() && Inv() && socketOpen
      requires topicAt + topicLen <= readBuf.Length
      requires reentries == 0 ==> Awaits(handlers[..], readBuf[topicAt..topicAt + topicLen], 0)
      modifies this, readBuf, writeBuf, handlers
      ensures rc == MqttSuccess
      ensures Inv() && Bracketed()
      ensures reentries == 0 ==> seen.acks == AckState.Delivering(old(seen).acks.owed, [])
      ensures reentries == old(reentries) ==>
                log == old(log) +
                    Calls(old(handlers[..]), old(readBuf[topicAt..topicAt + topicLen]), handlers.Length) && QuietKept()
      ensures NoCallBack(nesting)
      decreases nesting, 3
    {
      hide FollowsCounter, Follows, StreamAt, HasNoHandler, IsReply, DigestOf, InboundOf, WireOf, LowestFree, Calls,
        Step, AckStep;
      var state := clientState;
      rc := SetClientState(state, WaitForCbReturn);
      DeliverToSlots(topicAt, topicLen, nesting);
      rc := SetClientState(WaitForCbReturn, state);
    }

    /** What a wait keeps besides when no handler calls back. */
    twostate predicate QuietKept()
      reads `options, `isAutoReconnectEnabled, `ids, `tableEdits, `seen
    {
      && SettingsKept()
      && ids == old(ids)
      && tableEdits == old(tableEdits)
      && seen.asked == old(seen).asked
    }

    method DeliverToSlots(topicAt: nat, topicLen: nat, nesting: nat)
      requires Valid() && Inv() && socketOpen && clientState == WaitForCbReturn
      requires topicAt + topicLen <= readBuf.Length
      requires reentries == 0 ==> Awaits(handlers[..], readBuf[topicAt..topicAt + topicLen], 0)
      modifies this, readBuf, writeBuf, handlers
      ensures Inv() && Bracketed()
      ensures reentries == 0 ==> seen.acks == AckState.Delivering(old(seen).acks.owed, [])
      ensures reentries == old(reentries) ==>
                log == old(log) +
                    Calls(old(handlers[..]), old(readBuf[topicAt..topicAt + topicLen]), handlers.Length) && QuietKept()
      ensures NoCallBack(nesting)
      decreases nesting, 2
    {
      hide FollowsCounter, Follows, StreamAt, HasNoHandler, IsReply, DigestOf, InboundOf, WireOf, LowestFree, Calls,
        CallOf, Step, AckStep;
      var i := 0;
      NoCalls(handlers[..], readBuf[topicAt..topicAt + topicLen]);
      assert log + [] == log;
      while i < handlers.Length
        invariant i <= handlers.Length
        invariant Inv() && Bracketed()
        invariant NoCallBack(nesting)
        invariant reentries == 0 ==>
                    && Awaits(old(handlers[..]), old(readBuf[topicAt..topicAt + topicLen]), i)
                    && seen.acks.owed == old(seen).acks.owed
        invariant reentries == old(reentries) ==>
                    && log == old(log) + Calls(old(handlers[..]), old(readBuf[topicAt..topicAt + topicLen]), i) &&
                        QuietKept()
                    && readBuf[topicAt..topicAt + topicLen] == old(readBuf[topicAt..topicAt + topicLen])
      {
        ghost var before := log;
        if reentries == 0 {
          NextCall(old(handlers[..]), old(readBuf[topicAt..topicAt + topicLen]), i, seen.acks.due);
        }
        DeliverToSlot(i, topicAt, topicLen, nesting);
        if reentries == old(reentries) {
          CallsStep(old(log), before, log, old(handlers[..]), old(readBuf[topicAt..topicAt + topicLen]), i);
        }
        i := i + 1;
      }
      if reentries == 0 {
        NothingMoreDue(Calls(old(handlers[..]), old(readBuf[topicAt..topicAt + topicLen]), handlers.Length),
                       seen.acks.due);
      }
    }

    lemma NothingMoreDue(calls: Log, due: Log)
      requires calls + due == calls
      ensures due == []
    {
    }

    lemma CallsStep(start: Log, before: Log, after: Log, t: seq<Slot>, topic: seq<byte>, i: nat)
      requires i < |t| && before == start + Calls(t, topic, i)
      requires after == before + CallOf(t, topic, i)
      ensures after == start + Calls(t, topic, i + 1)
    {
    }

    /** One slot. The topic is read from the receive buffer each time, which a handler that calls
        back may have overwritten. */
    method DeliverToSlot(i: nat, topicAt: nat, topicLen: nat, nesting: nat)
      requires Valid() && Inv() && socketOpen && clientState == WaitForCbReturn
      requires i < handlers.Length && topicAt + topicLen <= readBuf.Length
      requires reentries == 0 ==>
                 && seen.acks.Delivering?
                 && CallOf(handlers[..], readBuf[topicAt..topicAt + topicLen], i) <= seen.acks.due
      modifies this, readBuf, writeBuf, handlers
      ensures Inv() && Bracketed()
      ensures reentries == 0 ==>
                var calls := CallOf(old(handlers[..]), old(readBuf[topicAt..topicAt + topicLen]), i);
                && calls <= old(seen).acks.due
                && seen.acks == AckState.Delivering(old(seen).acks.owed, old(seen).acks.due[|calls|..])
      ensures reentries == old(reentries) ==>
                && log == old(log) + CallOf(old(handlers[..]), old(readBuf[topicAt..topicAt + topicLen]), i) &&
                    QuietKept()
                && readBuf[..] == old(readBuf[..])
      ensures NoCallBack(nesting)
      decreases nesting, 1
    {
      hide FollowsCounter, Follows, StreamAt, IsReply, DigestOf, InboundOf, WireOf, LowestFree, Calls, Step, AckStep;
      var slot := handlers[i];
      assert log + [] == log;
      if slot.Some? {
        var name := readBuf[topicAt..topicAt + topicLen];
        var matched := IsTopicMatched(slot.value.filter, name);
        if name == slot.value.filter || matched {
          ApplicationHandler(i, slot.value.handler, nesting);
        }
      }
    }

    /** An application handler. Unless the nesting limit is reached it may call back into the client
        any number of times. */
    method ApplicationHandler(slot: nat, handler: nat, nesting: nat)
      requires Valid() && Inv() && socketOpen && clientState == WaitForCbReturn
      requires reentries == 0 ==> seen.acks.Delivering? && [Ran(slot, handler)] <= seen.acks.due
      modifies this, readBuf, writeBuf, handlers
      ensures Inv() && Bracketed()
      ensures reentries == 0 ==>
                && |old(seen).acks.due| > 0
                && seen.acks == AckState.Delivering(old(seen).acks.owed, old(seen).acks.due[1..])
      ensures reentries == old(reentries) ==>
                && log == old(log) + [Ran(slot, handler)]
                && readBuf[..] == old(readBuf[..])
                && QuietKept()
      ensures nesting == 0 ==> reentries == old(reentries)
      decreases nesting, 0
    {
      hide FollowsCounter, Follows, StreamAt, HasNoHandler, IsReply, DigestOf, InboundOf, WireOf;
      Record(Ran(slot, handler));
      Elapse();
      var calls: seq<Call> :| true;
      if nesting > 0 && |calls| > 0 {
        reentries := reentries + 1;
        CallBack(calls, nesting - 1);
      }
    }

    /** The calls a handler makes, one after the other. */
    method CallBack(calls: seq<Call>, nesting: nat)
      requires Valid() && Inv() && socketOpen && clientState == WaitForCbReturn && reentries > 0
      modifies this, readBuf, writeBuf, handlers
      ensures Inv() && Bracketed() && reentries > 0
      ensures nesting == 0 ==> reentries == old(reentries)
      decreases nesting, 33
    {
      hide FollowsCounter, Follows, StreamAt, HasNoHandler, IsReply, DigestOf, InboundOf, WireOf, Step, AckStep;
      var i := 0;
      while i < |calls|
        invariant i <= |calls|
        invariant nesting == 0 ==> reentries == old(reentries)
        invariant Inv() && Bracketed() && reentries > 0
      {
        OneCall(calls[i], nesting);
        i := i + 1;
      }
    }

    method OneCall(call: Call, nesting: nat)
      requires Valid() && Inv() && socketOpen && clientState == WaitForCbReturn && reentries > 0
      modifies this, readBuf, writeBuf, handlers
      ensures Inv() && Bracketed() && reentries > 0
      ensures nesting == 0 ==> reentries == old(reentries)
      decreases nesting, 32
    {
      hide FollowsCounter, Follows, StreamAt, HasNoHandler, IsReply, DigestOf, InboundOf, WireOf, Step, AckStep,
        LowestFree, Live, Published, SubscribeEffect, UnsubscribeEffect;
      var rc;
      match call {
        case CallPublish(topic, params) =>
          var id;
          rc, id := Publish(topic, params, nesting);
        case CallSubscribe(s) =>
          rc := Subscribe(s, nesting);
        case CallUnsubscribe(filter) =>
          rc := Unsubscribe(filter, nesting);
        case CallSetConnectParams(newOptions) =>
          options := newOptions;
        case CallSetAutoReconnect(status) =>
          isAutoReconnectEnabled := status;
        case _ =>
          rc := RefusedCall(call, nesting);
      }
    }

    /** Inside a handler a yield, a resubscription or a connection attempt is refused and changes nothing. */
    method RefusedCall(call: Call, nesting: nat) returns (rc: Rc)
      requires Valid() && Inv() && AckInv() && socketOpen && clientState == WaitForCbReturn
      requires call.CallResubscribe? || call.CallYield? || call.CallConnect? || call.CallAttemptReconnect?
      modifies this, readBuf, writeBuf, handlers
      ensures Untouched()
      ensures rc == if call.CallYield? && call.timeoutMs == 0 then NullValueError
                    else if call.CallYield? || call.CallResubscribe? then ClientNotIdle
                    else NetworkAlreadyConnected
      decreases nesting, 31
    {
      hide FollowsCounter, Follows, StreamAt, HasNoHandler, IsReply, DigestOf, InboundOf, WireOf, Step, AckStep,
        LowestFree, RequestsBelow;
      match call {
        case CallResubscribe =>
          ghost var asked;
          rc, asked := Resubscribe(nesting);
        case CallYield(timeout) =>
          rc := Yield(timeout, nesting);
        case CallConnect(newOptions) =>
          rc := Connect(newOptions, nesting);
        case CallAttemptReconnect =>
          rc := AttemptReconnect(nesting);
      }
    }

    /** What handling an inbound PUBLISH does when no handler calls back: the matching handlers run,
        then the PUBACK, if one is due, goes out or is lost. */
    ghost function PublishEffect(m: Message, table: seq<Slot>, acked: bool): (r: Log)
    {
      Calls(table, m.topic, |table|)
      + (if m.qos == 0 then [] else if acked then [Sent(PubackPacket(m.id))] else [AckLost(m.id)])
    }

    method HandlePublish(timer: nat, nesting: nat, ghost packet: Frame) returns (rc: Rc)
      requires Valid() && Inv() && socketOpen
      requires Deliverable(packet, readBuf.Length) && Canonical(packet) <= readBuf[..] &&
                TypeOf(packet.header) == PUBLISH
      requires reentries == 0 ==>
                 var e := Received(InboundOf(packet), handlers[..]); seen.acks == AckState.Delivering(Owed(e), Due(e))
      modifies this, readBuf, writeBuf, handlers
      ensures Inv() && AckInv() && Bracketed()
      ensures IsCycleResult(rc)
      ensures reentries == old(reentries) ==>
                SameRequests()
      ensures rc == MqttSuccess ==> ParsePublish(packet).Some?
      ensures reentries == old(reentries) && ParsePublish(packet).Some? ==>
                log == old(log) + PublishEffect(ParsePublish(packet).value, old(handlers[..]), rc == MqttSuccess)
      ensures NoCallBack(nesting)
      decreases nesting, 5
    {
      hide FollowsCounter, Follows, StreamAt, HasNoHandler, IsReply, DigestOf, InboundOf, WireOf;
      InboundByType(packet);
      var qos, id, topicAt, topicLen;
      rc, qos, id, topicAt, topicLen := ReadMessage(packet);
      if rc != MqttSuccess {
        return;
      }
      ghost var m := ParsePublish(packet).value;
      rc := DeliverAndAcknowledge(topicAt, topicLen, qos, id, timer, nesting, m);
    }

    method DeliverAndAcknowledge(topicAt: nat, topicLen: nat, qos: nat, id: uint16, timer: nat, nesting: nat,
        ghost m: Message)
      returns (rc: Rc)
      requires Valid() && Inv() && socketOpen
      requires topicAt + topicLen <= readBuf.Length
      requires m.qos == qos && m.id == id && m.topic == readBuf[topicAt..topicAt + topicLen]
      requires reentries == 0 ==>
                 seen.acks == AckState.Delivering(if qos > 0 then Some(id) else None,
                                                  Calls(handlers[..], m.topic, handlers.Length))
      modifies this, readBuf, writeBuf, handlers
      ensures Inv() && AckInv() && Bracketed()
      ensures IsCycleResult(rc)
      ensures reentries == old(reentries) ==>
                SameRequests()
      ensures reentries == old(reentries) ==>
                log == old(log) + PublishEffect(m, old(handlers[..]), rc == MqttSuccess)
      ensures NoCallBack(nesting)
      decreases nesting, 4
    {
      hide FollowsCounter, Follows, StreamAt, HasNoHandler, IsReply, DigestOf, InboundOf, WireOf, LowestFree, Calls;
      AllDue(Calls(handlers[..], m.topic, handlers.Length));
      NoCalls(handlers[..], m.topic);
      rc := DeliverMessage(topicAt, topicLen, nesting);
      assert Bracketed() && NoCallBack(nesting);
      if qos == 0 {
        AppendNothing(Calls(old(handlers[..]), m.topic, handlers.Length));
        return MqttSuccess;
      }
      ghost var delivered := log;
      rc := Acknowledge(id, timer);
      if reentries == old(reentries) {
        AppendOne(old(log), Calls(old(handlers[..]), m.topic, handlers.Length), Last(log));
      }
    }

    /** The fields of the message in the receive buffer that the handling needs. */
    method ReadMessage(ghost packet: Frame) returns (rc: Rc, qos: nat, id: uint16, topicAt: nat, topicLen: nat)
      requires Valid()
      requires Deliverable(packet, readBuf.Length) && Canonical(packet) <= readBuf[..] &&
                TypeOf(packet.header) == PUBLISH
      ensures IsCycleResult(rc)
      ensures rc == MqttSuccess <==> ParsePublish(packet).Some?
      ensures rc == MqttSuccess ==>
                var m := ParsePublish(packet).value;
                && topicAt + topicLen <= readBuf.Length
                && m.qos == qos && m.id == id && m.topic == readBuf[topicAt..topicAt + topicLen]
    {
      CanonicalHoldsPacket(readBuf[..], packet);
      var dup, retain, payloadAt, payloadLen;
      rc, dup, qos, retain, id, topicAt, topicLen, payloadAt, payloadLen := DeserializePublish(readBuf);
    }

    lemma AllDue(calls: Log)
      ensures [] + calls == calls
    {
    }

    lemma NoCalls(t: seq<Slot>, topic: seq<byte>)
      ensures Calls(t, topic, 0) == []
    {
    }

    lemma AppendNothing(calls: Log)
      ensures calls + [] == calls
    {
    }

    lemma AppendOne(start: Log, calls: Log, e: Event)
      ensures (start + calls) + [e] == start + (calls + [e])
    {
    }

    /** Sends the PUBACK for `id`; a failure is recorded. */
    method Acknowledge(id: uint16, timer: nat) returns (rc: Rc)
      requires Valid() && Inv()
      requires reentries == 0 ==> seen.acks == AckState.Delivering(Some(id), [])
      modifies `log, `seen, `clock, writeBuf
      ensures Inv() && AckInv() && clock >= old(clock)
      ensures rc == MqttSuccess || rc == MqttFailure || rc == TxBufferTooShort
      ensures seen.pingResps == old(seen).pingResps && seen.asked == old(seen).asked
      ensures log == old(log) + [if rc == MqttSuccess then Sent(PubackPacket(id)) else AckLost(id)]
    {
      hide FollowsCounter, StreamAt, DigestOf, InboundOf;
      var len;
      rc, len := SerializeAck(writeBuf, writeBuf.Length, PUBACK, 0, id);
      rc := SendPacket(len, timer, PubackPacket(id));
      if rc != MqttSuccess {
        Record(AckLost(id));
      }
    }

    // ---------- One read cycle, and waiting ----------

    /** Reads at most one packet and handles it. `got` is the packet, when there was one. */
    method CycleRead(timer: nat, lastType: nat, nesting: nat)
      returns (rc: Rc, packetType: nat, ghost got: Option<Frame>)
      requires Valid() && Inv() && AckInv() && socketOpen
      modifies this, readBuf, writeBuf, handlers
      ensures Inv() && AckInv() && Bracketed()
      ensures clock > old(clock)
      ensures IsCycleResult(rc)
      ensures got.None? ==> packetType == lastType && log == old(log) && seen == old(seen)
      ensures got.Some? ==> packetType == TypeOf(got.value.header) && HandlingOf(got.value, rc)
      ensures cooperative ==>
                && rc == MqttSuccess && got == Some(ReplyTo(old(writeBuf[0]), grants))
                && clock == old(clock) + 1 && writeBuf[0] == old(writeBuf[0])
      ensures reentries == old(reentries) ==> SameRequests()
      ensures Undisturbed(nesting)
      decreases nesting, 8
    {
      hide FollowsCounter, Follows, StreamAt, HasNoHandler, IsReply, DigestOf, InboundOf, WireOf, LowestFree, Calls,
        Step, AckStep, ReplyTo;
      ghost var packet;
      got := None;
      rc, packetType, packet := ReadPacket(lastType);
      if rc == NothingToRead {
        return MqttSuccess, packetType, got;
      } else if rc != MqttSuccess {
        return;
      }
      got := Some(packet);
      ReplyIsSmall(writeBuf[0], grants);
      rc := HandlePacket(timer, packetType, nesting, packet);
    }

    /** The waits send no request of their own. */
    twostate predicate SameRequests()
      reads `options, `isAutoReconnectEnabled, `ids, `tableEdits, `seen
    {
      && SettingsKept()
      && ids == old(ids)
      && tableEdits == old(tableEdits)
      && seen.asked == old(seen).asked
    }

    /** What one packet does, by its type. */
    twostate predicate HandlingOf(packet: Frame, rc: Rc)
      reads this, handlers, readBuf
    {
      && |log| > |old(log)| && log[|old(log)|] == Received(InboundOf(packet), old(handlers[..]))
      && (IsAwaited(TypeOf(packet.header)) ==>
            && rc == MqttSuccess && log == old(log) + [Received(InboundOf(packet), old(handlers[..]))]
            && Deliverable(packet, readBuf.Length) && Canonical(packet) <= readBuf[..])
      && (InboundOf(packet).Delivery? && reentries == old(reentries) ==>
            log == old(log) + [Received(InboundOf(packet), old(handlers[..]))]
                   + PublishEffect(InboundOf(packet).message, old(handlers[..]), rc == MqttSuccess))
      && (InboundOf(packet) == PingResponse ==>
            && WatchNow() == Watch(clock + 1000000 * keepAliveInterval, false)
            && silence == Begin(clock, 1000000 * keepAliveInterval))
    }

    /** The switch on the type of the packet just read. */
    method HandlePacket(timer: nat, packetType: nat, nesting: nat, ghost packet: Frame) returns (rc: Rc)
      requires Valid() && Core() && PingInv() && AckInv() && StreamWith(packet) && socketOpen
      requires Deliverable(packet, readBuf.Length) && Canonical(packet) <= readBuf[..]
      requires TypeOf(packet.header) == packetType
      modifies this, readBuf, writeBuf, handlers
      ensures Inv() && AckInv() && Bracketed()
      ensures IsCycleResult(rc) && HandlingOf(packet, rc)
      ensures reentries == old(reentries) ==> SameRequests()
      ensures packetType != PUBLISH ==>
                && clock == old(clock) && reentries == old(reentries) && writeBuf[..] == old(writeBuf[..])
                && (packetType == PINGRESP || IsAwaited(packetType) ==> rc == MqttSuccess)
      ensures NoCallBack(nesting)
      decreases nesting, 7
    {
      hide FollowsCounter, Follows, StreamAt, HasNoHandler, IsReply, DigestOf, InboundOf, WireOf, AckStep, HandlingOf;
      if packetType == PUBLISH {
        rc := RecordAndPublish(timer, nesting, packet);
      } else {
        rc := RecordAndHandleOther(packetType, packet);
      }
    }

    /** Records the packet just read. */
    ghost method TakeIn(packet: Frame)
      requires Core() && AckInv() && StreamWith(packet)
      modifies `log, `seen, `consumed
      ensures Core() && StreamInv()
      ensures log == old(log) + [Received(InboundOf(packet), handlers[..])]
      ensures seen.unanswered == if InboundOf(packet) == PingResponse then 0 else old(seen).unanswered
      ensures seen.pingResps == old(seen).pingResps + if InboundOf(packet) == PingResponse then 1 else 0
      ensures seen.asked == old(seen).asked
      ensures reentries == 0 ==>
                var e := Received(InboundOf(packet), handlers[..]); seen.acks == AckState.Delivering(Owed(e), Due(e))
    {
      hide FollowsCounter, StreamAt, DigestOf, InboundOf, Calls;
      Record(Received(InboundOf(packet), handlers[..]));
      consumed := consumed + 1;
    }

    method RecordAndPublish(timer: nat, nesting: nat, ghost packet: Frame) returns (rc: Rc)
      requires Valid() && Core() && PingInv() && AckInv() && StreamWith(packet) && socketOpen
      requires Deliverable(packet, readBuf.Length) && Canonical(packet) <= readBuf[..]
      requires TypeOf(packet.header) == PUBLISH
      modifies this, readBuf, writeBuf, handlers
      ensures Inv() && AckInv() && Bracketed()
      ensures IsCycleResult(rc) && HandlingOf(packet, rc)
      ensures reentries == old(reentries) ==> SameRequests()
      ensures NoCallBack(nesting)
      decreases nesting, 6
    {
      hide FollowsCounter, Follows, StreamAt, HasNoHandler, IsReply, DigestOf, InboundOf, WireOf, LowestFree, Calls,
        PublishEffect, Step, AckStep, Core, StreamInv, ParsePublish;
      InboundByType(packet);
      TakeIn(packet);
      assert Bracketed() && SettingsKept() && NoCallBack(nesting);
      rc := HandlePublish(timer, nesting, packet);
    }

    method RecordAndHandleOther(packetType: nat, ghost packet: Frame) returns (rc: Rc)
      requires Valid() && Core() && PingInv() && AckInv() && StreamWith(packet) && socketOpen
      requires Deliverable(packet, readBuf.Length) && Canonical(packet) <= readBuf[..]
      requires TypeOf(packet.header) == packetType != PUBLISH
      modifies `log, `seen, `consumed, `isPingOutstanding, `pingTimer, `silence
      ensures Inv() && AckInv() && Bracketed()
      ensures IsCycleResult(rc) && HandlingOf(packet, rc)
      ensures reentries == old(reentries) ==> SameRequests()
      ensures packetType == PINGRESP || IsAwaited(packetType) ==> rc == MqttSuccess
    {
      hide FollowsCounter, Follows, StreamAt, HasNoHandler, IsReply, DigestOf, InboundOf, WireOf, LowestFree, Calls,
        PublishEffect, Step, AckStep, Core, StreamInv;
      InboundByType(packet);
      TakeIn(packet);
      rc := HandleOther(packetType);
    }

    lemma InboundByType(packet: Frame)
      ensures InboundOf(packet) == PingResponse <==> TypeOf(packet.header) == PINGRESP
      ensures InboundOf(packet).Delivery? ==> TypeOf(packet.header) == PUBLISH
      ensures TypeOf(packet.header) == PUBLISH ==>
                InboundOf(packet) ==
                    match ParsePublish(packet) case Some(m) => Delivery(m) case None => OtherPacket(packet)
      ensures IsAwaited(TypeOf(packet.header)) ==> InboundOf(packet) == OtherPacket(packet)
    {
    }

    /** Every packet type but PUBLISH. */
    method HandleOther(packetType: nat) returns (rc: Rc)
      requires packetType != PUBLISH
      modifies `isPingOutstanding, `pingTimer, `silence
      ensures rc == MqttSuccess || rc == PacketTypeInvalid
      ensures packetType == PINGRESP || IsAwaited(packetType) ==> rc == MqttSuccess
      ensures if packetType == PINGRESP then
                && WatchNow() == Watch(clock + 1000000 * keepAliveInterval, false)
                && silence == Begin(clock, 1000000 * keepAliveInterval)
                && Follows(silence, WatchNow(), 1000000 * keepAliveInterval)
              else WatchNow() == old(WatchNow()) && silence == old(silence)
    {
      rc := MqttSuccess;
      if packetType == PINGRESP {
        isPingOutstanding := false;
        pingTimer := clock + 1000000 * keepAliveInterval;
        FollowsBegin(clock, 1000000 * keepAliveInterval);
        silence := Begin(clock, 1000000 * keepAliveInterval);
      } else if !IsAwaited(packetType) && packetType != PUBREC && packetType != PUBCOMP {
        rc := PacketTypeInvalid;
      }
    }

    /** The last thing read is a packet of type `packetType`, and it is still in the receive buffer. */
    ghost predicate Holding(packetType: nat, packet: Frame)
      reads this, readBuf
    {
      && |log| > 0 && Last(log).Received? && Last(log).inbound == OtherPacket(packet)
      && TypeOf(packet.header) == packetType
      && Deliverable(packet, readBuf.Length) && Canonical(packet) <= readBuf[..]
    }

    /** A cooperative broker's reply to the packet sent last is of this type. */
    ghost predicate Answers(packetType: nat)
      requires Valid()
      reads `grants, writeBuf
    {
      cooperative && TypeOf(ReplyTo(writeBuf[0], grants).header) == packetType
    }

    /** One turn of a wait: the time is up, or one read cycle is made. */
    method ReadOrExpire(packetType: nat, lastType: nat, timer: nat, nesting: nat)
      returns (expired: bool, rc: Rc, readType: nat, ghost got: Frame)
      requires Valid() && Inv() && AckInv() && socketOpen
      requires IsAwaited(packetType) && lastType != packetType
      modifies this, readBuf, writeBuf, handlers
      ensures Inv() && AckInv() && Bracketed()
      ensures if expired then clock >= timer && readType == lastType else old(clock) < timer && old(clock) < clock
      ensures readType == packetType ==> rc == MqttSuccess && |log| > |old(log)| && Holding(packetType, got)
      ensures old(Answers(packetType)) && old(clock) < timer ==>
                readType == packetType && got == ReplyTo(old(writeBuf[0]), grants)
      ensures reentries == old(reentries) ==> SameRequests()
      ensures cooperative && old(clock) <= timer ==> clock <= timer
      ensures cooperative ==> writeBuf[0] == old(writeBuf[0])
      ensures cooperative && !old(Answers(packetType)) ==> readType != packetType
      ensures Undisturbed(nesting)
      decreases nesting, 9
    {
      hide FollowsCounter, Follows, StreamAt, HasNoHandler, IsReply, DigestOf, InboundOf, WireOf, LowestFree, Calls,
        Step, AckStep, ReplyTo;
      rc, readType, got := MqttFailure, lastType, Frame(0, []);
      expired := HasTimerExpired(timer);
      if !expired {
        ghost var packet;
        rc, readType, packet := CycleRead(timer, lastType, nesting);
        if packet.Some? {
          got := packet.value;
          InboundByType(got);
        }
      }
    }

    /** Reads until a packet of the awaited type is in the receive buffer, or the time is up. */
    method WaitForRead(packetType: nat, timer: nat, nesting: nat) returns (rc: Rc, ghost got: Frame)
      requires Valid() && Inv() && AckInv() && socketOpen
      requires IsAwaited(packetType)
      modifies this, readBuf, writeBuf, handlers
      ensures Inv() && AckInv() && Bracketed()
      ensures rc == MqttSuccess || rc == RequestTimeout
      ensures rc == RequestTimeout ==> clock >= timer
      ensures rc == MqttSuccess ==> |log| > |old(log)| && Holding(packetType, got)
      ensures old(Answers(packetType)) && old(clock) < timer ==>
                rc == MqttSuccess && got == ReplyTo(old(writeBuf[0]), grants)
      ensures reentries == old(reentries) ==> SameRequests()
      ensures cooperative && old(clock) <= timer ==> clock <= timer
      ensures cooperative && !old(Answers(packetType)) ==> rc == RequestTimeout
      ensures Undisturbed(nesting)
      decreases nesting, 10
    {
      hide FollowsCounter, Follows, StreamAt, HasNoHandler, IsReply, DigestOf, InboundOf, WireOf, LowestFree, Calls,
        Step, AckStep, ReplyTo;
      var expired, readType;
      expired, rc, readType, got := ReadOrExpire(packetType, 0, timer, nesting);
      while readType != packetType && !expired
        invariant Inv() && AckInv() && Bracketed()
        invariant expired ==> clock >= timer && readType != packetType
        invariant readType == packetType ==> rc == MqttSuccess && |log| > |old(log)| && Holding(packetType, got)
        invariant old(Answers(packetType)) && old(clock) < timer ==>
                    readType == packetType && got == ReplyTo(old(writeBuf[0]), grants)
        invariant cooperative && old(clock) <= timer ==> clock <= timer
        invariant cooperative ==> writeBuf[0] == old(writeBuf[0])
        invariant cooperative && !old(Answers(packetType)) ==> readType != packetType
        invariant Undisturbed(nesting)
        invariant reentries == old(reentries) ==> SameRequests()
        decreases readType != packetType && !expired, if clock < timer then timer - clock else 0
      {
        expired, rc, readType, got := ReadOrExpire(packetType, readType, timer, nesting);
      }
      if expired {
        rc := RequestTimeout;
      }
    }

    // ---------- Publishing ----------

    /** Sends a packet that is neither a PUBACK nor a PINGREQ. */
    method Submit(length: nat, timer: nat, ghost packet: Outbound) returns (rc: Rc)
      requires Inv() && AckInv()
      requires IsOutbound(packet) && 0 < length <= writeBuf.Length && writeBuf[..length] == WireOf(packet)
      requires !packet.PubackPacket? && !packet.PingReqPacket?
      modifies `log, `seen, `clock
      ensures Inv() && AckInv() && clock >= old(clock)
      ensures rc == MqttSuccess || rc == MqttFailure || rc == TxBufferTooShort
      ensures seen.pingResps == old(seen).pingResps
      ensures rc == MqttSuccess ==>
                log == old(log) + [Sent(packet)] && seen.asked == old(seen).asked + Asked(Sent(packet))
      ensures rc != MqttSuccess ==> log == old(log) && seen == old(seen)
      ensures rc == MqttSuccess ==> length < writeBuf.Length
      ensures cooperative ==> clock == old(clock)
      ensures cooperative && length < writeBuf.Length && old(clock) < timer ==> rc == MqttSuccess
    {
      hide FollowsCounter, Follows, StreamAt, HasNoHandler, IsReply, DigestOf, InboundOf, WireOf;
      rc := SendPacket(length, timer, packet);
    }

    method InternalPublish(topic: Text, params: PublishParams, nesting: nat) returns (rc: Rc, id: uint16)
      requires Valid() && Inv() && AckInv() && socketOpen
      modifies this, readBuf, writeBuf, handlers
      ensures Inv() && AckInv() && Bracketed() && Progress()
      ensures rc == MqttSuccess ==>
                Published(old(log), log, Outgoing(0, params.qos, params.isRetained, id, topic, params.payload))
      ensures params.qos == QOS1 ==> |ids| > |old(ids)| && id == ids[|old(ids)|] == NextId(old(nextPacketId))
      ensures Undisturbed(nesting)
      decreases nesting, 12
    {
      hide FollowsCounter, Follows, StreamAt, HasNoHandler, IsReply, DigestOf, InboundOf, WireOf, LowestFree, Calls,
        Step, AckStep;
      var timer := clock + 1000 * commandTimeoutMs;
      rc, id := SendPublish(topic, params, timer);
      if rc == MqttSuccess && params.qos == QOS1 {
        rc := AwaitPuback(timer, nesting);
      }
    }

    method SendPublish(topic: Text, params: PublishParams, timer: nat) returns (rc: Rc, id: uint16)
      requires Valid() && Inv() && AckInv()
      modifies `log, `seen, `clock, `ids, `nextPacketId, writeBuf
      ensures Inv() && AckInv() && clock >= old(clock) && old(log) <= log && seen.pingResps == old(seen).pingResps
      ensures rc == MqttSuccess ==>
                log == old(log) +
                    [Sent(PublishPacket(Outgoing(0, params.qos, params.isRetained, id, topic, params.payload)))]
      ensures ids == if params.qos == QOS1 then old(ids) + [id] else old(ids)
      ensures params.qos == QOS1 ==> id == NextId(old(nextPacketId))
    {
      hide FollowsCounter, Follows, StreamAt, HasNoHandler, IsReply, DigestOf, InboundOf;
      id := 0;
      if params.qos == QOS1 {
        id := GetNextPacketId();
      }
      var len;
      rc, len := SerializePublish(writeBuf, writeBuf.Length, 0, params.qos, params.isRetained, id, topic,
          params.payload);
      if rc == MqttSuccess {
        rc := Submit(len, timer, PublishPacket(Outgoing(0, params.qos, params.isRetained, id, topic, params.payload)));
      }
    }

    method AwaitPuback(timer: nat, nesting: nat) returns (rc: Rc)
      requires Valid() && Inv() && AckInv() && socketOpen
      modifies this, readBuf, writeBuf, handlers
      ensures Inv() && AckInv() && Bracketed() && Progress()
      ensures rc == MqttSuccess ==> |log| > |old(log)| && Replied(Last(log), PUBACK)
      ensures Undisturbed(nesting)
      decreases nesting, 11
    {
      hide FollowsCounter, Follows, StreamAt, HasNoHandler, DigestOf, InboundOf, WireOf, LowestFree, Calls, Step,
        AckStep;
      ghost var got;
      rc, got := WaitForRead(PUBACK, timer, nesting);
      if rc == MqttSuccess {
        CanonicalHoldsPacket(readBuf[..], got);
        var messageType, dup, ackId;
        rc, messageType, dup, ackId := DeserializeAck(readBuf);
      }
    }

    method Publish(topic: Text, params: PublishParams, nesting: nat) returns (rc: Rc, id: uint16)
      requires Valid() && Callable()
      modifies this, readBuf, writeBuf, handlers
      ensures Callable() && Bracketed() && Progress()
      ensures |topic| == 0 ==> rc == NullValueError
      ensures |topic| > 0 && !IsConnected(old(clientState)) ==> rc == NetworkDisconnected
      ensures |topic| == 0 || !MayOperate(old(clientState)) ==> unchanged(this)
      ensures rc == MqttSuccess ==>
                Published(old(log), log, Outgoing(0, params.qos, params.isRetained, id, topic, params.payload))
      ensures rc == MqttSuccess && params.qos == QOS1 ==>
                |ids| > |old(ids)| && id == ids[|old(ids)|] == NextId(old(nextPacketId))
      ensures Undisturbed(nesting)
      decreases nesting, 13
    {
      hide FollowsCounter, Follows, StreamAt, HasNoHandler, IsReply, DigestOf, InboundOf, WireOf, LowestFree, Calls,
        Step, AckStep, Published;
      id := 0;
      if |topic| == 0 {
        return NullValueError, id;
      }
      if !IsConnected(clientState) {
        return NetworkDisconnected, id;
      }
      var state := clientState;
      if ConnectedIdle != state && WaitForCbReturn != state {
        return ClientNotIdle, id;
      }
      rc := SetClientState(state, PublishInProgress);
      if rc != MqttSuccess {
        return;
      }
      var pubRc;
      pubRc, id := InternalPublish(topic, params, nesting);
      rc := SetClientState(PublishInProgress, state);
      if pubRc == MqttSuccess && rc != MqttSuccess {
        pubRc := rc;
      }
      return pubRc, id;
    }

    // ---------- Subscribing ----------

    /** The first empty slot, or the number of slots. */
    method GetFreeMessageHandlerIndex() returns (i: nat)
      ensures i == LowestFree(handlers[..])
    {
      i := 0;
      while i < handlers.Length && handlers[i].Some?
        invariant i <= handlers.Length
        invariant forall j | 0 <= j < i :: handlers[j].Some?
      {
        i := i + 1;
      }
      LowestFreeIs(handlers[..], i);
    }

    lemma LowestFreeIs(t: seq<Slot>, i: nat)
      requires i <= |t| && (i < |t| ==> t[i].None?)
      requires forall j | 0 <= j < i :: t[j].Some?
      ensures i == LowestFree(t)
    {
    }

    /** A SUBSCRIBE with this request can be serialised and sent. */
    predicate CanAsk(r: Request) {
      var n := |r.filter| + 5;
      FinalPacketLength(n) <= writeBuf.Length && 1 + |Encode(n)| + n < writeBuf.Length
    }

    /** There is something to resubscribe, and its request can be sent. */
    predicate FirstCanBeAsked(t: seq<Slot>) {
      LowestFree(t) > 0 && CanAsk(Request(t[0].value.filter, t[0].value.qos))
    }

    /** A subscription that a cooperative broker grants. */
    ghost predicate WillBeGranted(s: Subscription)
      reads `grants, handlers
    {
      && cooperative && grants && commandTimeoutMs > 0
      && LowestFree(handlers[..]) < handlers.Length && CanAsk(Request(s.filter, s.qos))
    }

    /** Serialises a SUBSCRIBE for one filter with a fresh packet id and sends it, unless there is no
        slot for the subscription. */
    method SendSubscribe(request: Request, timer: nat, haveSlot: bool) returns (rc: Rc)
      requires Valid() && Inv() && AckInv()
      modifies `ids, `nextPacketId, `log, `seen, `clock, writeBuf
      ensures Inv() && AckInv() && clock >= old(clock) && seen.pingResps == old(seen).pingResps
      ensures ids == old(ids) + [nextPacketId] && nextPacketId == NextId(old(nextPacketId))
      ensures rc == MqttSuccess || rc == MqttFailure || rc == TxBufferTooShort
              || (!haveSlot && rc == MaxSubscriptionsReached)
      ensures !haveSlot ==> rc == MaxSubscriptionsReached || rc == TxBufferTooShort
      ensures rc == MqttSuccess ==>
                log == old(log) + [Sent(SubscribePacket(nextPacketId, request))] &&
                    seen.asked == old(seen).asked + [request]
      ensures rc != MqttSuccess ==> log == old(log) && seen == old(seen)
      ensures cooperative ==> clock == old(clock)
      ensures rc == MqttSuccess ==> TypeOf(writeBuf[0]) == SUBSCRIBE
      ensures cooperative && haveSlot && CanAsk(request) && old(clock) < timer ==> rc == MqttSuccess
    {
      hide FollowsCounter, Follows, StreamAt, HasNoHandler, IsReply, DigestOf, InboundOf, Core, StreamInv, AckInv;
      var id := GetNextPacketId();
      OneRequestLength(request);
      var len;
      rc, len := SerializeSubscribe(writeBuf, writeBuf.Length, 0, id, [request]);
      if rc != MqttSuccess {
        return;
      }
      if !haveSlot {
        return MaxSubscriptionsReached;
      }
      SubscribeStarts(writeBuf[..len], false, id, request);
      rc := Submit(len, timer, SubscribePacket(id, request));
    }

    lemma SubscribeStarts(packet: seq<byte>, dup: bool, id: uint16, request: Request)
      requires packet == Canonical(SubscribeFrame(dup, id, [request]))
      ensures TypeOf(packet[0]) == SUBSCRIBE
      ensures |packet| == 1 + |Encode(|request.filter| + 5)| + |request.filter| + 5
    {
      HeaderFields(SUBSCRIBE, dup, 1, false);
      OneRequestLength(request);
      assert packet[0] == SubscribeFrame(dup, id, [request]).header;
    }

    lemma OneRequestLength(request: Request)
      ensures |RequestsBytes([request])| == |request.filter| + 3
    {
    }

    method AwaitSuback(timer: nat, nesting: nat) returns (rc: Rc)
      requires Valid() && Inv() && AckInv() && socketOpen
      modifies this, readBuf, writeBuf, handlers
      ensures Inv() && AckInv() && Bracketed()
      ensures IsOperationResult(rc)
      ensures rc == MqttSuccess ==> |log| > |old(log)| && Replied(Last(log), SUBACK)
      ensures reentries == old(reentries) ==>
                SameRequests()
      ensures cooperative && old(clock) <= timer ==> clock <= timer
      ensures cooperative && !old(Answers(SUBACK)) ==> rc == RequestTimeout
      ensures old(Answers(SUBACK)) && old(clock) < timer ==> rc == MqttSuccess
      ensures rc == RequestTimeout ==> clock >= timer
      ensures Undisturbed(nesting)
      decreases nesting, 11
    {
      hide FollowsCounter, Follows, StreamAt, HasNoHandler, DigestOf, InboundOf, WireOf, LowestFree, Calls, Step,
        AckStep, Encode, AckInv;
      ghost var got;
      rc, got := WaitForRead(SUBACK, timer, nesting);
      if rc == MqttSuccess {
        CanonicalHoldsPacket(readBuf[..], got);
        var grantedQoS := new byte[3](_ => 0);
        var packetId, count;
        rc, packetId, count := DeserializeSuback(readBuf, 1, grantedQoS);
      }
    }

    /** Sends a request and waits for its SUBACK. */
    method RequestSubscription(request: Request, timer: nat, haveSlot: bool, nesting: nat) returns (rc: Rc)
      requires Valid() && Inv() && AckInv() && socketOpen
      modifies this, readBuf, writeBuf, handlers
      ensures Inv() && AckInv() && Bracketed()
      ensures IsOperationResult(rc) || (!haveSlot && rc == MaxSubscriptionsReached)
      ensures !haveSlot ==> rc == MaxSubscriptionsReached || rc == TxBufferTooShort
      ensures rc == MqttSuccess ==>
                Exchanged(old(log), log, SubscribePacket(NextId(old(nextPacketId)), request), SUBACK)
      ensures reentries == old(reentries) ==>
                && tableEdits == old(tableEdits)
                && (seen.asked == old(seen).asked || seen.asked == old(seen).asked + [request])
                && (rc == MqttSuccess ==> seen.asked == old(seen).asked + [request])
      ensures cooperative && !old(grants) ==> rc != MqttSuccess && (old(clock) <= timer ==> clock <= timer)
      ensures cooperative && !old(grants) && haveSlot && CanAsk(request) && old(clock) < timer ==>
                rc == RequestTimeout && clock >= timer
      ensures cooperative && old(grants) && haveSlot && CanAsk(request) && old(clock) < timer ==> rc == MqttSuccess
      ensures Undisturbed(nesting)
      decreases nesting, 12
    {
      hide FollowsCounter, Follows, StreamAt, HasNoHandler, IsReply, DigestOf, InboundOf, WireOf, LowestFree, Calls,
        Step, AckStep, Inv, AckInv, CanAsk, ReplyTo;
      rc := SendSubscribe(request, timer, haveSlot);
      assert Bracketed() && Undisturbed(nesting) && SettingsKept();
      ReplyIsSmall(writeBuf[0], grants);
      if rc == MqttSuccess {
        rc := AwaitSuback(timer, nesting);
      }
    }

    /** A completed store of `s` into slot `i`. */
    twostate predicate Stored(i: nat, s: Subscription)
      reads `beforeEdit, `tableEdits, handlers
    {
      && i < |beforeEdit| && handlers[..] == beforeEdit[i := Some(s)]
      && (Live(handlers[..]) == Live(beforeEdit) + multiset{s} <==> beforeEdit[i].None?)
      && tableEdits > old(tableEdits)
      && (tableEdits == old(tableEdits) + 1 ==> beforeEdit == old(handlers[..]))
    }

    /** What a subscribe does to the table. When no handler calls back, a success is one addition in
        the lowest free slot and a failure changes nothing. */
    twostate predicate SubscribeEffect(i: nat, s: Subscription, rc: Rc)
      reads `beforeEdit, `tableEdits, `log, `seen, `reentries, handlers
    {
      && (rc == MqttSuccess ==>
            Stored(i, s) &&
                Exchanged(old(log), log, SubscribePacket(NextId(old(nextPacketId)), Request(s.filter, s.qos)), SUBACK))
      && (reentries == old(reentries) ==>
            if rc == MqttSuccess then
              && tableEdits == old(tableEdits) + 1
              && seen.asked == old(seen).asked + [Request(s.filter, s.qos)]
            else tableEdits == old(tableEdits))
    }

    method InternalSubscribe(s: Subscription, nesting: nat) returns (rc: Rc)
      requires Valid() && Inv() && AckInv() && socketOpen
      modifies this, readBuf, writeBuf, handlers
      ensures Inv() && AckInv() && Bracketed()
      ensures LowestFree(old(handlers[..])) == handlers.Length ==>
                rc == MaxSubscriptionsReached || rc == TxBufferTooShort
      ensures SubscribeEffect(LowestFree(old(handlers[..])), s, rc)
      ensures old(WillBeGranted(s)) ==> rc == MqttSuccess
      ensures Undisturbed(nesting)
      decreases nesting, 14
    {
      hide FollowsCounter, Follows, StreamAt, HasNoHandler, IsReply, DigestOf, InboundOf, WireOf, LowestFree, Live,
        Calls, Step, AckStep, CanAsk;
      var timer := clock + 1000 * commandTimeoutMs;
      // found before the wait; the source looks after serialising, which does not touch the table
      var free := GetFreeMessageHandlerIndex();
      rc := RequestSubscription(Request(s.filter, s.qos), timer, free < handlers.Length, nesting);
      assert Bracketed();
      if rc == MqttSuccess {
        Store(free, s);
      }
    }

    method Store(i: nat, s: Subscription)
      requires i < handlers.Length
      modifies `tableEdits, `beforeEdit, handlers
      ensures tableEdits == old(tableEdits) + 1 && beforeEdit == old(handlers[..])
      ensures handlers[..] == old(handlers[..])[i := Some(s)]
      ensures Live(handlers[..]) == Live(beforeEdit) + multiset{s} <==> beforeEdit[i].None?
    {
      hide Live;
      StoreIsAdditionIffSlotEmpty(handlers[..], i, s);
      beforeEdit, tableEdits := handlers[..], tableEdits + 1;
      handlers[i] := Some(s);
    }

    method Subscribe(s: Subscription, nesting: nat) returns (rc: Rc)
      requires Valid() && Callable()
      modifies this, readBuf, writeBuf, handlers
      ensures Callable() && Bracketed()
      ensures !IsConnected(old(clientState)) ==> rc == NetworkDisconnected
      ensures !MayOperate(old(clientState)) ==> unchanged(this)
      ensures SubscribeEffect(LowestFree(old(handlers[..])), s, rc)
      ensures MayOperate(old(clientState)) && old(WillBeGranted(s)) ==> rc == MqttSuccess
      ensures Undisturbed(nesting)
      decreases nesting, 15
    {
      hide FollowsCounter, Follows, StreamAt, HasNoHandler, IsReply, DigestOf, InboundOf, WireOf, LowestFree, Live,
        Calls, Step, AckStep, Exchanged, Inv, AckInv, CanAsk;
      if !IsConnected(clientState) {
        return NetworkDisconnected;
      }
      var state := clientState;
      if ConnectedIdle != state && WaitForCbReturn != state {
        return ClientNotIdle;
      }
      rc := SetClientState(state, SubscribeInProgress);
      if rc != MqttSuccess {
        return;
      }
      var subRc := InternalSubscribe(s, nesting);
      rc := SetClientState(SubscribeInProgress, state);
      if subRc == MqttSuccess && rc != MqttSuccess {
        subRc := rc;
      }
      return subRc;
    }

    // ---------- Resubscribing ----------

    /** A resubscription when a cooperative broker grants nothing: it succeeds exactly when there is
        nothing to resubscribe, and otherwise waits for its first SUBACK until the time is up. */
    twostate predicate ResubscribeAlone(rc: Rc)
      reads `clock
    {
      cooperative && !old(grants) ==>
        && clock <= old(clock) + 1000 * commandTimeoutMs
        && (rc == MqttSuccess <==> LowestFree(old(handlers[..])) == 0)
        && (commandTimeoutMs > 0 && FirstCanBeAsked(old(handlers[..])) ==>
              rc == RequestTimeout && clock >= old(clock) + 1000 * commandTimeoutMs)
    }

    /** Repeats the requests of the slots below the lowest free one, in slot order. `asked` is the
        number of requests sent. */
    method InternalResubscribe(nesting: nat) returns (rc: Rc, ghost asked: nat)
      requires Valid() && Inv() && AckInv() && socketOpen
      modifies this, readBuf, writeBuf, handlers
      ensures Inv() && AckInv() && Bracketed()
      ensures IsOperationResult(rc)
      ensures LowestFree(old(handlers[..])) == 0 ==> rc == MqttSuccess
      ensures reentries == old(reentries) ==>
                && tableEdits == old(tableEdits)
                && asked <= LowestFree(old(handlers[..]))
                && seen.asked == old(seen).asked + RequestsBelow(old(handlers[..]), asked)
                && (rc == MqttSuccess ==> asked == LowestFree(old(handlers[..])))
      ensures ResubscribeAlone(rc)
      ensures Undisturbed(nesting)
      decreases nesting, 14
    {
      hide FollowsCounter, Follows, StreamAt, HasNoHandler, IsReply, DigestOf, InboundOf, WireOf, CanAsk;
      rc, asked := MqttSuccess, 0;
      var existing := GetFreeMessageHandlerIndex();
      var i := 0;
      assert seen.asked + [] == seen.asked;
      while i < existing
        invariant i <= existing
        invariant rc == MqttSuccess
        invariant cooperative && !old(grants) ==> i == 0 && clock == old(clock) && handlers[..] == old(handlers[..])
        invariant Inv() && AckInv() && Bracketed()
        invariant Undisturbed(nesting)
        invariant reentries == old(reentries) ==>
                    && tableEdits == old(tableEdits) && asked == i
                    && seen.asked == old(seen).asked + RequestsBelow(old(handlers[..]), i)
      {
        ghost var before := seen.asked;
        rc := ResubscribeSlot(i, nesting);
        if reentries == old(reentries) {
          NextRequest(old(seen).asked, old(handlers[..]), i);
          asked := if seen.asked == before then i else i + 1;
        }
        if rc != MqttSuccess {
          return;
        }
        i := i + 1;
      }
    }

    lemma NextRequest(start: seq<Request>, t: seq<Slot>, i: nat)
      requires i < LowestFree(t)
      ensures start + RequestsBelow(t, i) + [Request(t[i].value.filter, t[i].value.qos)] ==
                start + RequestsBelow(t, i + 1)
    {
      hide LowestFree;
      var request := Request(t[i].value.filter, t[i].value.qos);
      assert RequestsBelow(t, i + 1) == RequestsBelow(t, i) + [request];
    }

    method ResubscribeSlot(i: nat, nesting: nat) returns (rc: Rc)
      requires Valid() && Inv() && AckInv() && socketOpen
      requires i < handlers.Length
      modifies this, readBuf, writeBuf, handlers
      ensures Inv() && AckInv() && Bracketed()
      ensures IsOperationResult(rc)
      ensures old(handlers[i]).Some? && reentries == old(reentries) ==>
                var request := Request(old(handlers[i]).value.filter, old(handlers[i]).value.qos);
                && tableEdits == old(tableEdits)
                && (seen.asked == old(seen).asked || seen.asked == old(seen).asked + [request])
                && (rc == MqttSuccess ==> seen.asked == old(seen).asked + [request])
      ensures cooperative && !old(grants) ==> rc != MqttSuccess && clock <= old(clock) + 1000 * commandTimeoutMs
      ensures cooperative && !old(grants) && commandTimeoutMs > 0 && old(handlers[i]).Some? &&
              CanAsk(Request(old(handlers[i]).value.filter, old(handlers[i]).value.qos)) ==>
                rc == RequestTimeout && clock >= old(clock) + 1000 * commandTimeoutMs
      ensures Undisturbed(nesting)
      decreases nesting, 13
    {
      hide FollowsCounter, Follows, StreamAt, HasNoHandler, IsReply, DigestOf, InboundOf, WireOf, LowestFree, Calls,
        Step, AckStep, CanAsk;
      var timer := clock + 1000 * commandTimeoutMs;
      var slot := handlers[i];
      if slot.None? {
        // a handler has unsubscribed meanwhile; the source would follow a null pointer here
        return MqttFailure;
      }
      var request := Request(slot.value.filter, slot.value.qos);
      rc := RequestSubscription(request, timer, true, nesting);
    }

    method Resubscribe(nesting: nat) returns (rc: Rc, ghost asked: nat)
      requires Valid() && Callable()
      modifies this, readBuf, writeBuf, handlers
      ensures Callable() && Bracketed() && Progress()
      ensures old(clientState) == WaitForCbReturn ==> rc == ClientNotIdle
      ensures !IsConnected(old(clientState)) ==> rc == NetworkDisconnected
      ensures old(clientState) != ConnectedIdle ==> Untouched()
      ensures old(clientState) == ConnectedIdle ==> IsOperationResult(rc)
      ensures old(clientState) == ConnectedIdle && LowestFree(old(handlers[..])) == 0 ==> rc == MqttSuccess
      ensures old(clientState) == ConnectedIdle && reentries == old(reentries) ==>
                && handlers[..] == old(handlers[..])
                && asked <= LowestFree(old(handlers[..]))
                && seen.asked == old(seen).asked + RequestsBelow(old(handlers[..]), asked)
                && (rc == MqttSuccess ==> asked == LowestFree(old(handlers[..])))
      ensures old(clientState) == ConnectedIdle ==> ResubscribeAlone(rc)
      ensures Undisturbed(nesting)
      decreases nesting, 15
    {
      hide FollowsCounter, Follows, StreamAt, HasNoHandler, IsReply, DigestOf, InboundOf, WireOf, LowestFree, Calls,
        Step, AckStep, RequestsBelow, FirstCanBeAsked;
      asked := 0;
      if !IsConnected(clientState) {
        return NetworkDisconnected, asked;
      }
      if ConnectedIdle != clientState {
        return ClientNotIdle, asked;
      }
      rc := SetClientState(ConnectedIdle, ResubscribeInProgress);
      if rc != MqttSuccess {
        return;
      }
      var resubRc;
      resubRc, asked := InternalResubscribe(nesting);
      assert Growth() && BackoffKept() && PingKept() && Undisturbed(nesting);
      rc := SetClientState(ResubscribeInProgress, ConnectedIdle);
      if resubRc == MqttSuccess && rc != MqttSuccess {
        resubRc := rc;
      }
      return resubRc, asked;
    }

    // ---------- Unsubscribing ----------

    method HandlerExists(filter: Text) returns (found: bool)
      ensures found <==> HasFilter(handlers[..], filter)
    {
      found := false;
      var i := 0;
      while i < handlers.Length
        invariant i <= handlers.Length
        invariant found <==> exists j | 0 <= j < i :: handlers[j].Some? && handlers[j].value.filter == filter
      {
        if handlers[i].Some? && handlers[i].value.filter == filter {
          found := true;
        }
        i := i + 1;
      }
    }

    method RemoveFromHandlers(filter: Text)
      modifies `tableEdits, `beforeEdit, handlers
      ensures tableEdits == old(tableEdits) + 1 && beforeEdit == old(handlers[..])
      ensures handlers[..] == RemoveFilter(old(handlers[..]), filter)
    {
      beforeEdit, tableEdits := handlers[..], tableEdits + 1;
      var i := 0;
      while i < handlers.Length
        invariant i <= handlers.Length
        invariant tableEdits == old(tableEdits) + 1 && beforeEdit == old(handlers[..])
        invariant handlers[..i] == RemoveFilter(old(handlers[..]), filter)[..i]
        invariant forall j | i <= j < handlers.Length :: handlers[j] == old(handlers[j])
      {
        if handlers[i].Some? && handlers[i].value.filter == filter {
          handlers[i] := None;
        }
        i := i + 1;
      }
    }

    /** What an unsubscribe does to the table: a success removes every slot with the filter from the
        table as it was at that moment. When no handler calls back that is the table the call found,
        and a failure changes nothing. */
    twostate predicate UnsubscribeEffect(filter: Text, rc: Rc)
      reads `beforeEdit, `tableEdits, `log, `reentries, handlers
    {
      && (rc == MqttSuccess ==>
            && tableEdits > old(tableEdits) && handlers[..] == RemoveFilter(beforeEdit, filter)
            && Exchanged(old(log), log, UnsubscribePacket(NextId(old(nextPacketId)), filter), UNSUBACK))
      && (reentries == old(reentries) ==>
            if rc == MqttSuccess then tableEdits == old(tableEdits) + 1 && beforeEdit == old(handlers[..])
            else tableEdits == old(tableEdits))
    }

    method InternalUnsubscribe(filter: Text, nesting: nat) returns (rc: Rc)
      requires Valid() && Inv() && AckInv() && socketOpen
      modifies this, readBuf, writeBuf, handlers
      ensures Inv() && AckInv() && Bracketed()
      ensures !HasFilter(old(handlers[..]), filter) ==> rc == MqttFailure && log == old(log) && ids == old(ids)
      ensures UnsubscribeEffect(filter, rc)
      ensures Undisturbed(nesting)
      decreases nesting, 14
    {
      hide FollowsCounter, Follows, StreamAt, HasNoHandler, IsReply, DigestOf, InboundOf, WireOf, LowestFree, Calls,
        Step, AckStep;
      var exists' := HandlerExists(filter);
      if !exists' {
        return MqttFailure;
      }
      rc := PerformUnsubscribe(filter, nesting);
    }

    method PerformUnsubscribe(filter: Text, nesting: nat) returns (rc: Rc)
      requires Valid() && Inv() && AckInv() && socketOpen
      modifies this, readBuf, writeBuf, handlers
      ensures Inv() && AckInv() && Bracketed()
      ensures UnsubscribeEffect(filter, rc)
      ensures Undisturbed(nesting)
      decreases nesting, 13
    {
      hide FollowsCounter, Follows, StreamAt, HasNoHandler, IsReply, DigestOf, InboundOf, WireOf, LowestFree, Calls,
        Step, AckStep;
      var timer := clock + 1000 * commandTimeoutMs;
      rc := SendUnsubscribe(filter, timer);
      if rc != MqttSuccess {
        return;
      }
      rc := AwaitRemoval(filter, timer, nesting);
    }

    method AwaitRemoval(filter: Text, timer: nat, nesting: nat) returns (rc: Rc)
      requires Valid() && Inv() && AckInv() && socketOpen
      modifies this, readBuf, writeBuf, handlers
      ensures Inv() && AckInv() && Bracketed()
      ensures rc == MqttSuccess ==>
                && tableEdits > old(tableEdits) && handlers[..] == RemoveFilter(beforeEdit, filter)
                && |log| > |old(log)| && Replied(Last(log), UNSUBACK)
      ensures reentries == old(reentries) ==>
                if rc == MqttSuccess then tableEdits == old(tableEdits) + 1 && beforeEdit == old(handlers[..])
                else tableEdits == old(tableEdits)
      ensures Undisturbed(nesting)
      decreases nesting, 12
    {
      hide FollowsCounter, Follows, StreamAt, HasNoHandler, IsReply, DigestOf, InboundOf, WireOf, LowestFree, Calls,
        Step, AckStep;
      rc := AwaitUnsuback(timer, nesting);
      if rc == MqttSuccess {
        RemoveFromHandlers(filter);
      }
    }

    method SendUnsubscribe(filter: Text, timer: nat) returns (rc: Rc)
      requires Valid() && Inv() && AckInv()
      modifies `log, `seen, `clock, `ids, `nextPacketId, writeBuf
      ensures Inv() && AckInv() && clock >= old(clock) && old(log) <= log && seen.pingResps == old(seen).pingResps
      ensures ids == old(ids) + [nextPacketId] && nextPacketId == NextId(old(nextPacketId))
      ensures rc == MqttSuccess ==> log == old(log) + [Sent(UnsubscribePacket(nextPacketId, filter))]
    {
      hide FollowsCounter, Follows, StreamAt, HasNoHandler, IsReply, DigestOf, InboundOf;
      var id := GetNextPacketId();
      OneFilterLength(filter);
      var len;
      rc, len := SerializeUnsubscribe(writeBuf, writeBuf.Length, 0, id, [filter]);
      if rc == MqttSuccess {
        rc := Submit(len, timer, UnsubscribePacket(id, filter));
      }
    }

    lemma OneFilterLength(filter: Text)
      ensures |FiltersBytes([filter])| == |filter| + 2
    {
    }

    method AwaitUnsuback(timer: nat, nesting: nat) returns (rc: Rc)
      requires Valid() && Inv() && AckInv() && socketOpen
      modifies this, readBuf, writeBuf, handlers
      ensures Inv() && AckInv() && Bracketed()
      ensures rc == MqttSuccess ==> |log| > |old(log)| && Replied(Last(log), UNSUBACK)
      ensures reentries == old(reentries) ==> tableEdits == old(tableEdits)
      ensures Undisturbed(nesting)
      decreases nesting, 11
    {
      hide FollowsCounter, Follows, StreamAt, HasNoHandler, DigestOf, InboundOf, WireOf, LowestFree, Calls, Step,
        AckStep;
      ghost var got;
      rc, got := WaitForRead(UNSUBACK, timer, nesting);
      if rc == MqttSuccess {
        CanonicalHoldsPacket(readBuf[..], got);
        var packetId;
        rc, packetId := DeserializeUnsuback(readBuf);
      }
    }

    method Unsubscribe(filter: Text, nesting: nat) returns (rc: Rc)
      requires Valid() && Callable()
      modifies this, readBuf, writeBuf, handlers
      ensures Callable() && Bracketed()
      ensures !IsConnected(old(clientState)) ==> rc == NetworkDisconnected
      ensures !MayOperate(old(clientState)) ==> unchanged(this)
      ensures rc == MqttSuccess ==> HasFilter(old(handlers[..]), filter)
      ensures UnsubscribeEffect(filter, rc)
      ensures Undisturbed(nesting)
      decreases nesting, 15
    {
      hide FollowsCounter, Follows, StreamAt, HasNoHandler, IsReply, DigestOf, InboundOf, WireOf, LowestFree, Calls,
        Step, AckStep, Exchanged, Inv, AckInv;
      if !IsConnected(clientState) {
        return NetworkDisconnected;
      }
      var state := clientState;
      if ConnectedIdle != state && WaitForCbReturn != state {
        return ClientNotIdle;
      }
      rc := SetClientState(state, UnsubscribeInProgress);
      if rc != MqttSuccess {
        return;
      }
      var unsubRc := InternalUnsubscribe(filter, nesting);
      rc := SetClientState(UnsubscribeInProgress, state);
      if unsubRc == MqttSuccess && rc != MqttSuccess {
        unsubRc := rc;
      }
      return unsubRc;
    }

    // ---------- Connecting ----------

    /** The parameters of a connect: the given ones, or those of the last time. */
    function ParametersFor(newOptions: Option<ConnectOptions>): (o: ConnectOptions)
      reads this
    {
      match newOptions case Some(o) => o case None => options
    }

    /** Parameters that can be serialised and sent. */
    predicate Connectable(o: ConnectOptions) {
      && AcceptableClientId(o) && o.version == MQTT_3_1_1
      && FinalPacketLength(ConnectPacketLength(o)) <= writeBuf.Length
      && |Canonical(ConnectFrame(o))| < writeBuf.Length
    }

    /** On a cooperative network nothing else is needed to connect. */
    predicate WillConnect(o: ConnectOptions) {
      cooperative && commandTimeoutMs > 0 && Connectable(o)
    }

    /** A connection just accepted: asked for with the given parameters or those of the last time, no
        ping outstanding, and keep-alive watching from now on. */
    twostate predicate JustConnected(newOptions: Option<ConnectOptions>)
      reads `socketOpen, `watching, `pingTimer, `isPingOutstanding, `silence, `keepAliveInterval, `clock, `log
    {
      && socketOpen && watching
      && WatchNow() == Watch(clock + 1000000 * keepAliveInterval, false)
      && silence == Begin(clock, 1000000 * keepAliveInterval)
      && keepAliveInterval == old(ParametersFor(newOptions)).keepAlive
      && Begun(old(log), log, old(ParametersFor(newOptions)))
    }

    /** Unless a handler has called back a connect only takes over its parameters. */
    twostate predicate ConnectQuiet(newOptions: Option<ConnectOptions>)
      reads `reentries, `seen, `options, `isAutoReconnectEnabled
    {
      reentries == old(reentries) ==>
        && seen.asked == old(seen).asked
        && options == old(ParametersFor(newOptions))
        && isAutoReconnectEnabled == old(isAutoReconnectEnabled)
    }

    /** Opens the socket and sends the CONNECT. */
    method StartConnection(newOptions: Option<ConnectOptions>) returns (rc: Rc, timer: nat)
      requires Valid() && Inv() && AckInv()
      modifies `options, `socketOpen, `clock, `log, `seen, `keepAliveInterval, `watching, writeBuf
      ensures Inv() && AckInv() && clock >= old(clock) && old(log) <= log
      ensures seen.pingResps == old(seen).pingResps && seen.asked == old(seen).asked
      ensures rc == MqttSuccess ==>
                socketOpen && keepAliveInterval == options.keepAlive &&
                    log == old(log) + [Opened, Sent(ConnectPacket(options))]
      ensures options == old(ParametersFor(newOptions))
      ensures rc == MqttSuccess ==> Connectable(options)
      ensures WillConnect(options) ==> rc == MqttSuccess && Answers(CONNACK) && clock < timer
      ensures cooperative ==> clock == old(clock) + 1
      ensures rc == MqttSuccess ==> timer == old(clock) + 1 + 1000 * commandTimeoutMs || !cooperative
    {
      hide FollowsCounter, Follows, StreamAt, HasNoHandler, IsReply, DigestOf, InboundOf, WireOf, Step, AckStep,
        Connectable, ReplyTo, Core, StreamInv, AckInv;
      timer := 0;
      if newOptions.Some? {
        options := newOptions.value;
      }
      rc := OpenSocket();
      if rc != MqttSuccess {
        return;
      }
      timer := clock + 1000 * commandTimeoutMs;
      watching := false;
      keepAliveInterval := options.keepAlive;
      rc := SendConnect(timer);
    }

    method SendConnect(timer: nat) returns (rc: Rc)
      requires Valid() && Inv() && AckInv()
      modifies `clock, `log, `seen, writeBuf
      ensures Inv() && AckInv() && clock >= old(clock) && seen.pingResps == old(seen).pingResps &&
                seen.asked == old(seen).asked
      ensures rc == MqttSuccess ==> Connectable(options)
      ensures cooperative && Connectable(options) && old(clock) < timer ==>
                rc == MqttSuccess && Answers(CONNACK) && clock == old(clock)
      ensures log == if rc == MqttSuccess then old(log) + [Sent(ConnectPacket(options))] else old(log)
      ensures cooperative ==> clock == old(clock)
    {
      hide FollowsCounter, Follows, StreamAt, HasNoHandler, IsReply, DigestOf, InboundOf, Step, AckStep, Encode,
        HeaderByte, TypeOf, ReplyTo;
      var len;
      rc, len := SerializeConnect(writeBuf, writeBuf.Length, options);
      if rc == MqttSuccess {
        assert writeBuf[0] == writeBuf[..len][0] == ConnectFrame(options).header;
        HeaderFields(CONNECT, false, 0, false);
        ReplyIsSmall(writeBuf[0], grants);
        rc := Submit(len, timer, ConnectPacket(options));
      }
    }

    /** Waits for the CONNACK; success only when it accepts the connection. */
    method AwaitConnack(timer: nat, nesting: nat) returns (rc: Rc)
      requires Valid() && Inv() && AckInv() && socketOpen
      modifies this, readBuf, writeBuf, handlers
      ensures Inv() && AckInv() && Bracketed() && Progress()
      ensures rc == MqttSuccess ==> |log| > |old(log)| && Replied(Last(log), CONNACK)
      ensures old(Answers(CONNACK)) && old(clock) < timer ==> rc == MqttSuccess
      ensures reentries == old(reentries) ==> seen.asked == old(seen).asked && SettingsKept()
      ensures cooperative && old(clock) <= timer ==> clock <= timer
      ensures Undisturbed(nesting)
      decreases nesting, 11
    {
      hide FollowsCounter, Follows, StreamAt, HasNoHandler, DigestOf, InboundOf, WireOf, Step, AckStep, Inv, AckInv;
      ghost var got;
      rc, got := WaitForRead(CONNACK, timer, nesting);
      if rc != MqttSuccess {
        return;
      }
      CanonicalHoldsPacket(readBuf[..], got);
      var sessionPresent, connackRc;
      rc, sessionPresent, connackRc := DeserializeConnack(readBuf);
      if rc == MqttSuccess && connackRc != ConnackAccepted {
        rc := connackRc;
      }
    }

    method InternalConnect(newOptions: Option<ConnectOptions>, nesting: nat) returns (rc: Rc)
      requires Valid() && Inv() && AckInv()
      modifies this, readBuf, writeBuf, handlers
      ensures Inv() && AckInv() && Progress() && BackoffKept()
      ensures clientState == old(clientState)
      ensures rc == MqttSuccess ==> JustConnected(newOptions) && Connectable(old(ParametersFor(newOptions)))
      ensures WillConnect(old(ParametersFor(newOptions))) ==> rc == MqttSuccess
      ensures ConnectQuiet(newOptions)
      ensures cooperative ==> clock <= old(clock) + 1 + 1000 * commandTimeoutMs
      ensures Undisturbed(nesting)
      decreases nesting, 16
    {
      hide FollowsCounter, Follows, StreamAt, HasNoHandler, IsReply, DigestOf, InboundOf, WireOf, Step, AckStep,
        Connectable, ReplyTo;
      var timer;
      rc, timer := StartConnection(newOptions);
      if rc != MqttSuccess {
        return;
      }
      assert Progress() && BackoffKept();
      rc := Handshake(timer, nesting);
    }

    /** Waits for the CONNACK and, when it accepts, starts watching the connection. */
    method Handshake(timer: nat, nesting: nat) returns (rc: Rc)
      requires Valid() && Inv() && AckInv() && socketOpen
      modifies this, readBuf, writeBuf, handlers
      ensures Inv() && AckInv() && Progress() && BackoffKept()
      ensures clientState == old(clientState) && keepAliveInterval == old(keepAliveInterval) && socketOpen
      ensures rc == MqttSuccess ==>
                && watching && WatchNow() == Watch(clock + 1000000 * keepAliveInterval, false)
                && silence == Begin(clock, 1000000 * keepAliveInterval)
                && |log| > |old(log)| + 1 && Last(log) == Accepted && Replied(Last(Front(log)), CONNACK)
      ensures old(Answers(CONNACK)) && old(clock) < timer ==> rc == MqttSuccess
      ensures reentries == old(reentries) ==> seen.asked == old(seen).asked && SettingsKept()
      ensures cooperative && old(clock) <= timer ==> clock <= timer
      ensures Undisturbed(nesting)
      decreases nesting, 12
    {
      hide FollowsCounter, Follows, StreamAt, HasNoHandler, IsReply, DigestOf, InboundOf, WireOf, Step, AckStep;
      rc := AwaitConnack(timer, nesting);
      assert Progress() && BackoffKept() && Undisturbed(nesting);
      if rc == MqttSuccess {
        AcceptConnection();
      }
    }

    method AcceptConnection()
      requires Core() && AckInv() && StreamInv()
      modifies `isPingOutstanding, `pingTimer, `silence, `watching, `log, `seen
      ensures Inv() && AckInv() && watching
      ensures !isPingOutstanding && pingTimer == clock + 1000000 * keepAliveInterval
      ensures silence == Begin(clock, 1000000 * keepAliveInterval)
      ensures log == old(log) + [Accepted] && seen.asked == old(seen).asked
    {
      hide FollowsCounter, Follows, StreamAt, HasNoHandler, IsReply, DigestOf, InboundOf, WireOf;
      isPingOutstanding := false;
      pingTimer := clock + 1000000 * keepAliveInterval;
      FollowsBegin(clock, 1000000 * keepAliveInterval);
      silence, watching := Begin(clock, 1000000 * keepAliveInterval), true;
      Record(Accepted);
    }

    method Connect(newOptions: Option<ConnectOptions>, nesting: nat) returns (rc: Rc)
      requires Valid() && Callable()
      modifies this, readBuf, writeBuf, handlers
      ensures Callable() && Progress() && BackoffKept()
      ensures !ValidForConnect(old(clientState)) ==>
                rc == NetworkAlreadyConnected && Untouched()
      ensures ValidForConnect(old(clientState)) && rc == MqttSuccess ==>
                clientState == ConnectedIdle && JustConnected(newOptions) && Connectable(old(ParametersFor(newOptions)))
      ensures ValidForConnect(old(clientState)) && WillConnect(old(ParametersFor(newOptions))) ==> rc == MqttSuccess
      ensures ValidForConnect(old(clientState)) ==> ConnectQuiet(newOptions)
      ensures ValidForConnect(old(clientState)) && rc != MqttSuccess ==> clientState == DisconnectedError && !socketOpen
      ensures reentries == old(reentries) ==> seen.asked == old(seen).asked
      ensures cooperative ==> clock <= old(clock) + 1 + 1000 * commandTimeoutMs
      ensures Undisturbed(nesting)
      decreases nesting, 18
    {
      hide FollowsCounter, Follows, StreamAt, HasNoHandler, IsReply, DigestOf, InboundOf, WireOf, Step, AckStep,
        Connectable, Begun, Inv, AckInv;
      var state := clientState;
      if !ValidForConnect(state) {
        return NetworkAlreadyConnected;
      }
      var stateRc := SetClientState(state, Connecting);
      rc := PerformConnect(newOptions, nesting);
    }

    /** The connection attempt with its final state changes. */
    method PerformConnect(newOptions: Option<ConnectOptions>, nesting: nat) returns (rc: Rc)
      requires Valid() && Inv() && AckInv() && clientState == Connecting
      modifies this, readBuf, writeBuf, handlers
      ensures Inv() && AckInv() && Progress() && BackoffKept()
      ensures rc == MqttSuccess ==>
                clientState == ConnectedIdle && JustConnected(newOptions) && Connectable(old(ParametersFor(newOptions)))
      ensures WillConnect(old(ParametersFor(newOptions))) ==> rc == MqttSuccess
      ensures rc != MqttSuccess ==> clientState == DisconnectedError && !socketOpen
      ensures ConnectQuiet(newOptions)
      ensures cooperative ==> clock <= old(clock) + 1 + 1000 * commandTimeoutMs
      ensures Undisturbed(nesting)
      decreases nesting, 17
    {
      hide FollowsCounter, Follows, StreamAt, HasNoHandler, IsReply, DigestOf, InboundOf, WireOf, Step, AckStep,
        Connectable, Begun, Inv, AckInv;
      rc := InternalConnect(newOptions, nesting);
      var stateRc;
      if rc != MqttSuccess {
        CloseSocket();
        stateRc := SetClientState(Connecting, DisconnectedError);
      } else {
        stateRc := SetClientState(Connecting, ConnectedIdle);
      }
    }

    // ---------- Disconnecting ----------

    method InternalDisconnect() returns (rc: Rc)
      requires Valid() && Inv() && AckInv()
      modifies `clock, `log, `seen, `socketOpen, writeBuf
      ensures Inv() && AckInv() && clock >= old(clock) && old(log) <= log && seen.pingResps == old(seen).pingResps
      ensures rc == MqttSuccess ==> !socketOpen && log == old(log) + [Sent(DisconnectPacket), Closed]
      ensures rc != MqttSuccess ==> socketOpen == old(socketOpen) && log == old(log)
      ensures cooperative && commandTimeoutMs > 0 ==> rc == MqttSuccess
    {
      hide FollowsCounter, Follows, StreamAt, HasNoHandler, IsReply, DigestOf, InboundOf, Step, AckStep, Core,
        StreamInv, AckInv;
      var len;
      rc, len := SerializeZero(writeBuf, writeBuf.Length, DISCONNECT);
      if rc != MqttSuccess {
        return;
      }
      var timer := clock + 1000 * commandTimeoutMs;
      rc := Submit(len, timer, DisconnectPacket);
      if rc != MqttSuccess {
        return;
      }
      CloseSocket();
    }

    method Disconnect() returns (rc: Rc)
      requires Valid() && Inv() && AckInv()
      modifies `clientState, `clock, `log, `seen, `socketOpen, writeBuf
      ensures Inv() && AckInv() && clock >= old(clock) && old(log) <= log && seen.pingResps == old(seen).pingResps
      ensures !IsConnected(old(clientState)) ==> rc == NetworkDisconnected && unchanged(this)
      ensures IsConnected(old(clientState)) && rc == MqttSuccess ==>
                clientState == DisconnectedManually && !socketOpen && log == old(log) + [Sent(DisconnectPacket), Closed]
      ensures IsConnected(old(clientState)) && rc != MqttSuccess ==>
                clientState == old(clientState) && socketOpen == old(socketOpen) && log == old(log)
      ensures cooperative && commandTimeoutMs > 0 && IsConnected(old(clientState)) ==> rc == MqttSuccess
    {
      hide FollowsCounter, Follows, StreamAt, HasNoHandler, IsReply, DigestOf, InboundOf, WireOf, Step, AckStep;
      var state := clientState;
      if !IsConnected(clientState) {
        return NetworkDisconnected;
      }
      rc := SetClientState(state, Disconnecting);
      rc := InternalDisconnect();
      if rc != MqttSuccess {
        clientState := state;
      } else {
        // overwritten when the disconnect was noticed rather than asked for
        clientState := DisconnectedManually;
      }
    }

    /** For a disconnect whose packet could not be sent. */
    method ForceDisconnect()
      requires Inv() && AckInv()
      modifies `clientState, `socketOpen, `log, `seen
      ensures Inv() && AckInv() && clientState == DisconnectedError && !socketOpen
      ensures log == old(log) + [Closed] && seen.pingResps == old(seen).pingResps
    {
      hide FollowsCounter, Follows, StreamAt, HasNoHandler, IsReply, DigestOf, InboundOf, WireOf, Step, AckStep;
      clientState := DisconnectedError;
      CloseSocket();
    }

    /** Ends a connection in any case. */
    method EndConnection()
      requires Valid() && Inv() && AckInv() && IsConnected(clientState) && socketOpen
      modifies `clientState, `clock, `log, `seen, `socketOpen, writeBuf
      ensures Inv() && AckInv() && clock >= old(clock) && old(log) <= log && seen.pingResps == old(seen).pingResps
      ensures (clientState == DisconnectedManually || clientState == DisconnectedError) && !socketOpen
      ensures log == old(log) + [Sent(DisconnectPacket), Closed] || log == old(log) + [Closed]
    {
      hide FollowsCounter, Follows, StreamAt, HasNoHandler, IsReply, DigestOf, InboundOf, WireOf, Step, AckStep;
      var rc := Disconnect();
      if rc != MqttSuccess {
        ForceDisconnect();
      }
    }

    /** A disconnect that was noticed. The application's disconnect handler takes time and does not
        call the client. */
    method HandleDisconnect() returns (rc: Rc)
      requires Valid() && Inv() && AckInv() && IsConnected(clientState) && socketOpen
      modifies `clientState, `clock, `log, `seen, `socketOpen, writeBuf
      ensures Inv() && AckInv() && clock >= old(clock) && old(log) <= log && seen.pingResps == old(seen).pingResps
      ensures rc == NetworkDisconnected && clientState == DisconnectedError && !socketOpen
      ensures log == old(log) + [Sent(DisconnectPacket), Closed] || log == old(log) + [Closed]
    {
      hide FollowsCounter, Follows, StreamAt, HasNoHandler, IsReply, DigestOf, InboundOf, WireOf, Step, AckStep, Core,
        StreamInv, AckInv;
      EndConnection();
      Elapse();
      clientState := DisconnectedError;
      rc := NetworkDisconnected;
    }

    /** The same with the handler of the sample application, which reconnects by itself when
        reconnecting is not automatic. The state it leaves is overwritten, so the client takes itself
        for disconnected although the socket is open, exactly when the handler's attempt connected. That
        takes parameters that can be sent and no automatic reconnecting, and on a cooperative network
        nothing else. */
    method HandleDisconnectReconnecting(nesting: nat) returns (rc: Rc, ghost attempt: Option<Rc>)
      requires Valid() && Inv() && AckInv() && IsConnected(clientState) && socketOpen
      modifies this, readBuf, writeBuf, handlers
      ensures Inv() && AckInv() && Progress()
      ensures rc == NetworkDisconnected && clientState == DisconnectedError
      ensures attempt.Some? <==> !old(isAutoReconnectEnabled)
      ensures (IsConnected(clientState) <==> socketOpen) <==>
                attempt == None || attempt == Some(NetworkAttemptingReconnect)
      ensures old(isAutoReconnectEnabled) ==> (IsConnected(clientState) <==> socketOpen)
      ensures !(IsConnected(clientState) <==> socketOpen) ==> !old(isAutoReconnectEnabled) && Connectable(old(options))
      ensures cooperative && commandTimeoutMs > 0 ==>
                ((IsConnected(clientState) <==> socketOpen) <==>
                 old(isAutoReconnectEnabled) || !Connectable(old(options)))
      ensures Undisturbed(nesting)
      decreases nesting, 21
    {
      hide FollowsCounter, Follows, StreamAt, HasNoHandler, IsReply, DigestOf, InboundOf, WireOf, Step, AckStep,
        Connectable, LowestFree, Inv, AckInv;
      attempt := None;
      EndConnection();
      assert Progress();
      if !isAutoReconnectEnabled {
        var handlerRc := AttemptReconnect(nesting);
        attempt := Some(handlerRc);
      }
      clientState := DisconnectedError;
      rc := NetworkDisconnected;
    }

    // ---------- Keep-alive ----------

    /** One keep-alive check. `check` records when it looked at the timer and what it decided. */
    method KeepAlive() returns (rc: Rc, ghost check: Check)
      requires Valid() && Inv() && AckInv() && IsConnected(clientState) && socketOpen && watching
      modifies `clientState, `clock, `log, `seen, `socketOpen, `isPingOutstanding, `pingTimer, `silence, writeBuf
      ensures Inv() && AckInv() && clock >= old(clock) && old(log) <= log && seen.pingResps == old(seen).pingResps
      ensures rc == MqttSuccess ==> clientState == old(clientState) && socketOpen
      ensures rc != MqttSuccess ==> rc == NetworkDisconnected && clientState == DisconnectedError && !socketOpen
      ensures keepAliveInterval == 0 ==>
                rc == MqttSuccess && log == old(log) && WatchNow() == old(WatchNow()) && silence == old(silence)
      ensures keepAliveInterval > 0 ==>
                && old(clock) <= check.at <= clock
                && CheckStep(old(WatchNow()), check, 1000000 * keepAliveInterval, WatchNow())
                && (rc == NetworkDisconnected <==> check.verdict == Disconnected)
                && NoticedInTime(old(silence), check, 1000000 * keepAliveInterval, rc == NetworkDisconnected)
                && (rc == MqttSuccess ==> silence == After(old(silence), check, WatchNow()))
                && (check.verdict == Quiet ==> log == old(log))
                && (check.verdict == Pinged ==> log == old(log) + [Sent(PingReqPacket)] && check.armed <= clock)
    {
      hide FollowsCounter, Follows, StreamAt, HasNoHandler, IsReply, DigestOf, InboundOf, WireOf, Step, AckStep,
        NoticedInTime, Core, StreamInv, AckInv;
      check := Check(clock, clock, Quiet);
      if keepAliveInterval == 0 {
        return MqttSuccess, check;
      }
      var expired := HasTimerExpired(pingTimer);
      ghost var before, k := WatchNow(), 1000000 * keepAliveInterval;
      check := Check(clock, clock, Quiet);
      if !expired {
        CheckIsInTime(silence, before, check, before, k);
        FollowsAfter(silence, WatchNow(), check, WatchNow(), 1000000 * keepAliveInterval);
        silence := After(silence, check, WatchNow());
        return MqttSuccess, check;
      }
      if isPingOutstanding {
        check := check.(verdict := Disconnected);
        CheckIsInTime(silence, before, check, before, k);
        rc := HandleDisconnect();
        return;
      }
      // no ping is outstanding: send one
      rc := SendPing(check.at);
      if rc != MqttSuccess {
        check := check.(verdict := Disconnected);
        CheckIsInTime(silence, before, check, before, k);
        rc := HandleDisconnect();
        return;
      }
      check := Check(check.at, clock, Pinged);
      CheckIsInTime(old(silence), before, check, WatchNow(), k);
    }

    /** Sends the PINGREQ at the start of the transmit buffer. */
    method SubmitPing(length: nat, timer: nat) returns (rc: Rc)
      requires Core() && StreamInv() && AckInv()
      requires 0 < length <= writeBuf.Length && writeBuf[..length] == WireOf(PingReqPacket)
      modifies `log, `seen, `clock
      ensures Core() && StreamInv() && AckInv() && clock >= old(clock)
      ensures seen.pingResps == old(seen).pingResps
      ensures rc == MqttSuccess ==>
                log == old(log) + [Sent(PingReqPacket)] && seen.unanswered == old(seen).unanswered + 1
      ensures rc != MqttSuccess ==> log == old(log) && seen == old(seen)
    {
      hide FollowsCounter, StreamAt, DigestOf, InboundOf, WireOf;
      rc := SendPacket(length, timer, PingReqPacket);
    }

    method SendPing(ghost at: nat) returns (rc: Rc)
      requires Valid() && Inv() && AckInv() && !isPingOutstanding && watching
      requires pingTimer <= at <= clock
      modifies `isPingOutstanding, `pingTimer, `silence, `clock, `log, `seen, writeBuf
      ensures Inv() && AckInv() && clock >= old(clock) && seen.pingResps == old(seen).pingResps
      ensures rc == MqttSuccess ==>
                && log == old(log) + [Sent(PingReqPacket)]
                && isPingOutstanding && pingTimer == clock + 1000000 * keepAliveInterval
                && silence == After(old(silence), Check(at, clock, Pinged), WatchNow())
      ensures rc != MqttSuccess ==> log == old(log) && WatchNow() == old(WatchNow()) && silence == old(silence)
    {
      hide FollowsCounter, Follows, StreamAt, HasNoHandler, IsReply, DigestOf, InboundOf, Step, AckStep, Core,
        StreamInv, AckInv;
      var timer := clock + 1000 * commandTimeoutMs;
      var len;
      rc, len := SerializeZero(writeBuf, writeBuf.Length, PINGREQ);
      if rc != MqttSuccess {
        return;
      }
      rc := SubmitPing(len, timer);
      if rc == MqttSuccess {
        ghost var before := WatchNow();
        isPingOutstanding := true;
        pingTimer := clock + 1000000 * keepAliveInterval;
        FollowsAfter(silence, before, Check(at, clock, Pinged), WatchNow(), 1000000 * keepAliveInterval);
        silence := After(silence, Check(at, clock, Pinged), WatchNow());
      }
    }

    /** A connection that is still up was, on its latest keep-alive check, not yet silent for twice the
        keep-alive interval plus the gap `g` between checks and the time `d` a send may take. */
    lemma KeptConnectionIsNotSilentForLong(g: nat, d: nat)
      requires PingInv() && watching && keepAliveInterval > 0
      requires |silence.checks| > 0 && Regular(silence.checks, silence.start, g, d)
      ensures silence.checks[|silence.checks| - 1].at < silence.start + 2 * (1000000 * keepAliveInterval) + g + d
    {
      KeptMeansRecent(silence, WatchNow(), 1000000 * keepAliveInterval, g, d);
    }

    /** A yield that succeeds on a connection that stays silent has begun before the silence lasted 2K plus
        the gap `g` between checks and the time `d` a send may take. */
    twostate lemma SuccessMeansNotSilentForLong(g: nat, d: nat)
      requires PingInv() && watching && keepAliveInterval > 0 && Checked()
      requires Regular(silence.checks, silence.start, g, d)
      ensures old(clock) < silence.start + 2 * (1000000 * keepAliveInterval) + g + d
    {
      KeptConnectionIsNotSilentForLong(g, d);
    }

    // ---------- Reconnecting ----------

    /** Whether the link is up; the platform reports a link that is down as manually disconnected. */
    method PhysicalLayer() returns (rc: Rc)
      modifies `clock
      ensures clock >= old(clock)
      ensures rc == NetworkPhysicalLayerConnected || rc == NetworkManuallyDisconnected
      ensures cooperative ==> rc == NetworkPhysicalLayerConnected && clock == old(clock)
    {
      rc := NetworkPhysicalLayerConnected;
      if !cooperative {
        var later: nat :| later >= clock;
        clock := later;
        var up: bool := *;
        rc := if up then NetworkPhysicalLayerConnected else NetworkManuallyDisconnected;
      }
    }

    /** What a reconnect attempt of an unconnected client can end in: connected and resubscribed,
        pending, or connected with a resubscription that failed. */
    ghost predicate AttemptOutcome(rc: Rc)
      reads this
    {
      if rc == NetworkAttemptingReconnect then clientState == PendingReconnect
      else clientState == ConnectedIdle && (rc == NetworkReconnected || (IsOperationResult(rc) && rc != MqttSuccess))
    }

    /** A reconnection has repeated every request in the slots below the lowest free one. */
    twostate predicate Resubscribed(rc: Rc)
      reads this, handlers
    {
      rc == NetworkReconnected && reentries == old(reentries) ==>
        seen.asked == old(seen).asked + RequestsBelow(old(handlers[..]), LowestFree(old(handlers[..])))
    }

    /** What an attempt depends on. It can connect only when the parameters can be sent, and without
        anything to resubscribe that is all that can fail. On a cooperative network it connects whenever
        they can be sent, and when nothing is granted it succeeds exactly when there is nothing to
        resubscribe. */
    twostate predicate AttemptDepends(rc: Rc)
      reads `clock, `keepAliveInterval, `reentries
    {
      && (rc != NetworkAttemptingReconnect ==>
            Connectable(old(options)) && keepAliveInterval == old(options).keepAlive)
      && (LowestFree(old(handlers[..])) == 0 && reentries == old(reentries) ==>
            rc == NetworkReconnected || rc == NetworkAttemptingReconnect)
      && (WillConnect(old(options)) ==> rc != NetworkAttemptingReconnect)
      && (cooperative && !old(grants) ==>
            && clock <= old(clock) + 1 + 2000 * commandTimeoutMs
            && (WillConnect(old(options)) ==>
                  && (rc == NetworkReconnected <==> LowestFree(old(handlers[..])) == 0)
                  && (FirstCanBeAsked(old(handlers[..])) ==> clock >= old(clock) + 1000 * commandTimeoutMs)))
    }

    method AttemptReconnect(nesting: nat) returns (rc: Rc)
      requires Valid() && Callable()
      modifies this, readBuf, writeBuf, handlers
      ensures Callable() && Progress() && BackoffKept()
      ensures IsConnected(old(clientState)) ==>
                rc == NetworkAlreadyConnected && Untouched()
      ensures !IsConnected(old(clientState)) ==>
                Stable() && AttemptOutcome(rc) && Resubscribed(rc) && AttemptDepends(rc)
      ensures Undisturbed(nesting)
      decreases nesting, 20
    {
      hide FollowsCounter, Follows, StreamAt, HasNoHandler, IsReply, DigestOf, InboundOf, WireOf, Step, AckStep,
        Connectable, IsOperationResult, Inv, AckInv;
      if IsConnected(clientState) {
        return NetworkAlreadyConnected;
      }
      rc := ConnectAndResubscribe(nesting);
    }

    method ConnectAndResubscribe(nesting: nat) returns (rc: Rc)
      requires Valid() && Stable() && !IsConnected(clientState)
      modifies this, readBuf, writeBuf, handlers
      ensures Stable() && Progress() && BackoffKept()
      ensures AttemptOutcome(rc) && Resubscribed(rc) && AttemptDepends(rc)
      ensures Undisturbed(nesting)
      decreases nesting, 19
    {
      hide FollowsCounter, Follows, StreamAt, HasNoHandler, IsReply, DigestOf, InboundOf, WireOf, Step, AckStep,
        Connectable, LowestFree, RequestsBelow, Untouched, FirstCanBeAsked;
      rc := Connect(None, nesting);
      assert Progress() && BackoffKept() && Undisturbed(nesting);
      if clientState != ConnectedIdle {
        var stateRc := SetClientState(DisconnectedError, PendingReconnect);
        return NetworkAttemptingReconnect;
      }
      rc := ResubscribeAll(nesting);
    }

    /** The resubscription that ends a successful attempt. */
    method ResubscribeAll(nesting: nat) returns (rc: Rc)
      requires Valid() && Stable() && clientState == ConnectedIdle
      modifies this, readBuf, writeBuf, handlers
      ensures Stable() && clientState == ConnectedIdle && Bracketed() && Progress()
      ensures AttemptOutcome(rc) && Resubscribed(rc) && rc != NetworkAttemptingReconnect
      ensures LowestFree(old(handlers[..])) == 0 ==> rc == NetworkReconnected
      ensures ResubscribeAlone(if rc == NetworkReconnected then MqttSuccess else rc)
      ensures Undisturbed(nesting)
      decreases nesting, 16
    {
      hide FollowsCounter, Follows, StreamAt, HasNoHandler, IsReply, DigestOf, InboundOf, WireOf, Step, AckStep,
        LowestFree, RequestsBelow, Untouched, FirstCanBeAsked, Inv, AckInv, Undisturbed;
      ghost var asked;
      rc, asked := Resubscribe(nesting);
      if rc == MqttSuccess {
        rc := NetworkReconnected;
      }
    }

    /** The back-off history is consistent while it matters. */
    ghost predicate BackoffInv()
      reads this
      requires Valid()
    {
      armed ==> Consistent(BackoffHistory(), minWait, maxWait, clock)
    }

    ghost function BackoffHistory(): History
      reads this
    {
      History(disconnectedAt, rounds, currentReconnectWaitInterval, reconnectDelayTimer)
    }

    twostate lemma BackoffStaysConsistent()
      requires Valid()
      requires old(BackoffInv()) && BackoffKept() && old(clock) <= clock
      ensures BackoffInv()
    {
    }

    /** The client inside a yield: connected, or waiting to reconnect. */
    ghost predicate InYield()
      reads this
    {
      && Inv() && AckInv()
      && (clientState == YieldInProgress || clientState == ConnectedIdle || clientState == PendingReconnect)
      && (IsConnected(clientState) <==> socketOpen)
      && (socketOpen ==> watching)
    }

    /** Nothing to resubscribe means that no round leaves the client idle in the middle of a yield. */
    twostate predicate NeverIdle()
      reads `clientState, `reentries
    {
      LowestFree(old(handlers[..])) == 0 && reentries == old(reentries) && old(clientState) != ConnectedIdle ==>
        clientState != ConnectedIdle
    }

    /** The same as for the attempt, by the state it leaves. */
    twostate predicate TryDepends()
      reads `clock, `keepAliveInterval, `clientState
    {
      cooperative && !old(grants) ==>
        && clock <= old(clock) + 1 + 2000 * commandTimeoutMs
        && (WillConnect(old(options)) ==>
              && clientState == (if LowestFree(old(handlers[..])) == 0 then YieldInProgress else ConnectedIdle)
              && keepAliveInterval == old(options).keepAlive
              && (FirstCanBeAsked(old(handlers[..])) ==> clock >= old(clock) + 1000 * commandTimeoutMs))
    }

    /** One attempt when its time has come; `rc` tells how it went. */
    method TryOnce(nesting: nat) returns (rc: Rc)
      requires Valid() && Stable() && clientState == PendingReconnect
      modifies this, readBuf, writeBuf, handlers
      ensures Inv() && AckInv() && Progress() && BackoffKept()
      ensures TryOutcome(rc)
      ensures NeverIdle() && TryDepends()
      ensures Undisturbed(nesting)
      decreases nesting, 22
    {
      hide FollowsCounter, Follows, StreamAt, HasNoHandler, IsReply, DigestOf, InboundOf, WireOf, Step, AckStep,
        Untouched, Inv, AckInv, LowestFree, FirstCanBeAsked, Connectable;
      rc := PhysicalLayer();
      assert Progress() && BackoffKept();
      if rc == NetworkPhysicalLayerConnected {
        rc := ReconnectIntoYield(nesting);
      }
    }

    /** A reconnect attempt; when it succeeds the client goes back to the yield it is in. */
    method ReconnectIntoYield(nesting: nat) returns (rc: Rc)
      requires Valid() && Stable() && clientState == PendingReconnect
      modifies this, readBuf, writeBuf, handlers
      ensures Inv() && AckInv() && Progress() && BackoffKept()
      ensures TryOutcome(rc)
      ensures NeverIdle() && TryDepends()
      ensures Undisturbed(nesting)
      decreases nesting, 21
    {
      hide FollowsCounter, Follows, StreamAt, HasNoHandler, IsReply, DigestOf, InboundOf, WireOf, Step, AckStep,
        Untouched, Resubscribed, IsOperationResult, RoundLeaves, LowestFree, FirstCanBeAsked, Connectable;
      rc := AttemptReconnect(nesting);
      assert Progress() && BackoffKept();
      AttemptLeaves(rc);
      if rc == NetworkReconnected {
        var stateRc := SetClientState(ConnectedIdle, YieldInProgress);
      }
    }

    /** Reconnected and back in the yield; still pending; or connected with a failed resubscription. */
    ghost predicate TryOutcome(rc: Rc)
      reads this
    {
      && RoundLeaves(rc, clientState, false)
      && rc != MqttSuccess && rc != NetworkDisconnected
      && (rc != NetworkReconnected ==> clientState != YieldInProgress)
      && (socketOpen <==> clientState != PendingReconnect) && (socketOpen ==> watching)
    }

    /** What a failed round does to the back-off: the interval doubles, and unless it now exceeds the
        maximum the next attempt is that far away. */
    twostate predicate RoundFailed()
      reads this
    {
      && currentReconnectWaitInterval == 2 * old(currentReconnectWaitInterval)
      && rounds == old(rounds) + 1 && armed == old(armed) && disconnectedAt == old(disconnectedAt)
      && counterNetworkDisconnected == old(counterNetworkDisconnected)
      && old(reconnectDelayTimer) <= clock
      && reconnectDelayTimer ==
          if currentReconnectWaitInterval <= maxWait then clock + 1000 * currentReconnectWaitInterval
                                else old(reconnectDelayTimer)
    }

    /** A round is due that will connect, find no SUBACK, and give up. */
    ghost predicate Doomed()
      reads this, handlers
    {
      && cooperative && !grants && clientState == PendingReconnect && reconnectDelayTimer <= clock
      && currentReconnectWaitInterval <= maxWait < 2 * currentReconnectWaitInterval
      && WillConnect(options) && FirstCanBeAsked(handlers[..])
    }

    /** That round gives up on an open connection, after the time of one wait, and at most `us`
        microseconds more than the time of two. */
    twostate predicate GaveUpConnected(rc: Rc, us: nat)
      reads `clock, `keepAliveInterval, `clientState
    {
      && cooperative && rc == NetworkReconnectTimedOut && clientState == ConnectedIdle
      && keepAliveInterval == old(options).keepAlive
      && old(clock) + 1000 * commandTimeoutMs <= clock <= old(clock) + us + 2000 * commandTimeoutMs
    }

    method HandleReconnect(nesting: nat) returns (rc: Rc)
      requires Valid() && InYield() && clientState == PendingReconnect && currentReconnectWaitInterval <= maxWait
      modifies this, readBuf, writeBuf, handlers
      ensures InYield() && Progress()
      ensures RoundLeaves(rc, clientState, currentReconnectWaitInterval > maxWait)
      ensures rc != MqttSuccess && rc != NetworkDisconnected
      ensures rc == NetworkReconnected ==> BackoffKept()
      ensures rc != NetworkReconnected ==> (rc == NetworkAttemptingReconnect && OnlyTimePassed()) || RoundFailed()
      ensures NeverIdle()
      ensures old(Doomed()) ==> GaveUpConnected(rc, 1)
      ensures Undisturbed(nesting)
      decreases nesting, 24
    {
      hide FollowsCounter, Follows, StreamAt, HasNoHandler, IsReply, DigestOf, InboundOf, WireOf, Step, AckStep,
        Consistent, LowestFree, FirstCanBeAsked, Connectable;
      var expired := HasTimerExpired(reconnectDelayTimer);
      if !expired {
        return NetworkAttemptingReconnect;
      }
      rc := AttemptRound(nesting);
    }

    /** A round whose time has come: an attempt, and when it fails the end of the round. */
    method AttemptRound(nesting: nat) returns (rc: Rc)
      requires Valid() && Stable() && clientState == PendingReconnect
      requires currentReconnectWaitInterval <= maxWait && reconnectDelayTimer <= clock
      modifies this, readBuf, writeBuf, handlers
      ensures InYield() && Progress()
      ensures RoundLeaves(rc, clientState, currentReconnectWaitInterval > maxWait)
      ensures rc != MqttSuccess && rc != NetworkDisconnected
      ensures rc == NetworkReconnected ==> BackoffKept()
      ensures rc != NetworkReconnected ==> RoundFailed()
      ensures NeverIdle()
      ensures old(Doomed()) ==> GaveUpConnected(rc, 1)
      ensures Undisturbed(nesting)
      decreases nesting, 23
    {
      hide FollowsCounter, Follows, StreamAt, HasNoHandler, IsReply, DigestOf, InboundOf, WireOf, Step, AckStep,
        Consistent, RoundLeaves, LowestFree, Connectable;
      rc := TryOnce(nesting);
      GivingUpLeaves(rc, clientState);
      if rc == NetworkReconnected {
        return;
      }
      assert Progress() && BackoffKept();
      rc := FailRound(rc);
    }

    /** The end of a failed round: doubles the interval, and gives up or sets the timer. */
    method FailRound(attemptRc: Rc) returns (rc: Rc)
      requires Valid() && Core() && currentReconnectWaitInterval <= maxWait && reconnectDelayTimer <= clock
      modifies `currentReconnectWaitInterval, `rounds, `reconnectDelayTimer
      ensures Core() && RoundFailed() && Progress()
      ensures rc == if currentReconnectWaitInterval <= maxWait then attemptRc else NetworkReconnectTimedOut
    {
      hide FollowsCounter, StreamAt, DigestOf;
      rounds := rounds + 1;
      currentReconnectWaitInterval := currentReconnectWaitInterval * 2;
      if maxWait < currentReconnectWaitInterval {
        return NetworkReconnectTimedOut;
      }
      reconnectDelayTimer := clock + 1000 * currentReconnectWaitInterval;
      rc := attemptRc;
    }

    // ---------- Yield ----------

    /** How the result of a round describes the state it leaves. */
    ghost predicate RoundOutcome(rc: Rc)
      reads this
    {
      && (if rc == NetworkDisconnected then Inv() && AckInv() && !socketOpen else InYield())
      && RoundLeaves(rc, clientState, currentReconnectWaitInterval > maxWait)
    }

    /** One read cycle and, after a good one, one keep-alive check. */
    method ReadAndCheck(timer: nat, nesting: nat) returns (rc: Rc)
      requires Valid() && Inv() && AckInv() && IsConnected(clientState) && socketOpen && watching
      modifies this, readBuf, writeBuf, handlers
      ensures Inv() && AckInv() && Progress() && BackoffKept() && clock > old(clock)
      ensures rc == NetworkDisconnected ==> clientState == DisconnectedError && !socketOpen
      ensures rc != NetworkDisconnected ==> clientState == old(clientState) && socketOpen && watching
      ensures rc != NetworkDisconnected ==> IsCycleResult(rc) && !IsTerminal(rc)
      ensures rc == MqttSuccess ==> Checked()
      ensures keepAliveInterval == old(keepAliveInterval)
      ensures cooperative && keepAliveInterval == 0 ==> rc == MqttSuccess
      ensures Undisturbed(nesting)
      decreases nesting, 20
    {
      hide FollowsCounter, Follows, StreamAt, HasNoHandler, IsReply, DigestOf, InboundOf, WireOf, Step, AckStep,
        PublishEffect, IsConnected, CheckStep, After, HandlingOf, Inv, AckInv;
      rc := ReadOnce(timer, nesting);
      assert Progress() && BackoffKept();
      rc := CheckLink(rc);
    }

    /** A keep-alive check has been made since. */
    twostate predicate Checked()
      reads this
    {
      keepAliveInterval > 0 ==>
        |silence.checks| > 0 && old(clock) <= silence.checks[|silence.checks| - 1].at <= clock
    }

    /** What follows a read cycle: a keep-alive check after a good one, the end of the connection
        after a terminal error. */
    method CheckLink(readRc: Rc) returns (rc: Rc)
      requires Valid() && Inv() && AckInv() && IsConnected(clientState) && socketOpen && watching
      requires IsCycleResult(readRc)
      modifies `clientState, `clock, `log, `seen, `socketOpen, `isPingOutstanding, `pingTimer, `silence, writeBuf
      ensures Inv() && AckInv() && clock >= old(clock) && old(log) <= log
      ensures rc == NetworkDisconnected ==> clientState == DisconnectedError && !socketOpen
      ensures rc != NetworkDisconnected ==>
                clientState == old(clientState) && socketOpen && IsCycleResult(rc) && !IsTerminal(rc)
      ensures IsTerminal(readRc) ==> rc == NetworkDisconnected
      ensures rc == MqttSuccess ==> Checked()
      ensures readRc != MqttSuccess && !IsTerminal(readRc) ==> rc == readRc && log == old(log)
      ensures readRc == MqttSuccess && keepAliveInterval == 0 ==> rc == MqttSuccess
    {
      hide FollowsCounter, Follows, StreamAt, HasNoHandler, IsReply, DigestOf, InboundOf, WireOf, Step, AckStep,
        IsConnected, CheckStep;
      rc := readRc;
      if rc == MqttSuccess {
        ghost var check;
        rc, check := KeepAlive();
      } else if IsTerminal(rc) {
        rc := HandleDisconnect();
      }
    }

    /** A read cycle, seen only by its result. */
    method ReadOnce(timer: nat, nesting: nat) returns (rc: Rc)
      requires Valid() && Inv() && AckInv() && socketOpen
      modifies this, readBuf, writeBuf, handlers
      ensures Inv() && AckInv() && Progress() && BackoffKept() && clock > old(clock)
      ensures clientState == old(clientState) && socketOpen && watching == old(watching)
      ensures IsCycleResult(rc) && rc != NetworkDisconnected
      ensures keepAliveInterval == old(keepAliveInterval)
      ensures cooperative ==> rc == MqttSuccess
      ensures Undisturbed(nesting)
      decreases nesting, 19
    {
      hide FollowsCounter, Follows, StreamAt, HasNoHandler, IsReply, DigestOf, InboundOf, WireOf, Step, AckStep,
        PublishEffect, HandlingOf;
      ghost var got;
      var packetType;
      rc, packetType, got := CycleRead(timer, 0, nesting);
    }

    /** The disconnect counter has 32 bits and wraps around. */
    function CountUp(n: nat): (r: nat)
      ensures r < WORD
    {
      (n + 1) % WORD
    }

    /** A noticed disconnect starts the back-off when reconnecting is automatic. The state change
        cannot fail. */
    method StartBackoff() returns (rc: Rc)
      requires Valid() && Inv() && AckInv() && clientState == DisconnectedError && !socketOpen
      modifies `clientState, `counterNetworkDisconnected, `currentReconnectWaitInterval, `reconnectDelayTimer,
               `armed, `disconnectedAt, `rounds
      ensures RoundOutcome(rc) && Inv() && AckInv()
      ensures rc == if isAutoReconnectEnabled then NetworkAttemptingReconnect else NetworkDisconnected
      ensures counterNetworkDisconnected == CountUp(old(counterNetworkDisconnected))
      ensures isAutoReconnectEnabled ==>
                armed && disconnectedAt == clock && rounds == 0 && currentReconnectWaitInterval == minWait
      ensures old(BackoffInv()) ==> BackoffInv()
    {
      hide FollowsCounter, Follows, StreamAt, HasNoHandler, IsReply, DigestOf, InboundOf, WireOf, Step, AckStep,
        Consistent, CountUp;
      CountDisconnect();
      if isAutoReconnectEnabled {
        rc := EnterBackoff();
      } else {
        rc := NetworkDisconnected;
      }
    }

    method EnterBackoff() returns (rc: Rc)
      requires Valid() && Inv() && AckInv() && clientState == DisconnectedError && !socketOpen
      modifies `clientState, `currentReconnectWaitInterval, `reconnectDelayTimer, `armed, `disconnectedAt, `rounds
      ensures RoundOutcome(rc) && Inv() && AckInv()
      ensures rc == NetworkAttemptingReconnect
      ensures armed && disconnectedAt == clock && rounds == 0 && currentReconnectWaitInterval == minWait
      ensures BackoffInv()
    {
      hide FollowsCounter, Follows, StreamAt, HasNoHandler, IsReply, DigestOf, InboundOf, WireOf, Step, AckStep,
        Consistent, Core, StreamInv, AckInv;
      rc := SetClientState(DisconnectedError, PendingReconnect);
      if rc != MqttSuccess {
        return;
      }
      ArmBackoff();
      rc := NetworkAttemptingReconnect;
    }

    method CountDisconnect()
      requires Core()
      modifies `counterNetworkDisconnected
      ensures Core() && counterNetworkDisconnected == CountUp(old(counterNetworkDisconnected))
    {
      hide FollowsCounter, StreamAt, DigestOf;
      counterNetworkDisconnected := CountUp(counterNetworkDisconnected);
    }

    method ArmBackoff()
      requires Valid() && Core()
      modifies `currentReconnectWaitInterval, `reconnectDelayTimer, `armed, `disconnectedAt, `rounds
      ensures Core()
      ensures armed && disconnectedAt == clock && rounds == 0
      ensures currentReconnectWaitInterval == minWait && reconnectDelayTimer == clock + 1000 * minWait
      ensures BackoffInv()
    {
      hide FollowsCounter, Follows, StreamAt, HasNoHandler, IsReply, DigestOf, Consistent;
      Armed(clock, minWait, maxWait);
      armed, disconnectedAt, rounds := true, clock, 0;
      currentReconnectWaitInterval := minWait;
      reconnectDelayTimer := clock + 1000 * currentReconnectWaitInterval;
    }

    /** A failed round keeps the back-off history consistent. */
    twostate lemma FailedRoundStaysConsistent()
      requires Valid()
      requires old(BackoffInv()) && RoundFailed() && old(clock) <= clock
      requires old(currentReconnectWaitInterval) <= maxWait
      ensures BackoffInv()
    {
      if armed {
        FailedRound(old(BackoffHistory()), minWait, maxWait, old(clock), clock);
      }
    }

    /** Reconnecting has been given up. */
    predicate GaveUp()
      reads this
    {
      clientState == PendingReconnect && currentReconnectWaitInterval > maxWait
    }

    /** While a back-off runs its interval is MIN doubled once per failed round and never exceeds twice
        MAX, so that doubling does not overflow; it exceeds MAX once all rounds have failed. */
    lemma IntervalIsBounded()
      requires Valid() && BackoffInv()
      ensures armed ==>
                && currentReconnectWaitInterval == Interval(minWait, rounds) <= 2 * maxWait < WORD
                && (currentReconnectWaitInterval > maxWait <==> rounds == Rounds(minWait, maxWait))
    {
      GivesUpAfterRounds(minWait, maxWait, rounds);
    }

    /** Reconnecting is given up after exactly the number of rounds that the limits allow, and not
        before the sum of their waiting times has passed. */
    lemma GivingUpTakesAllRounds()
      requires Valid() && BackoffInv() && armed && GaveUp()
      ensures rounds == Rounds(minWait, maxWait)
      ensures clock >= disconnectedAt + 1000 * (minWait * (Pow2(rounds) - 1))
    {
      GivenUp(BackoffHistory(), minWait, maxWait, clock);
    }

    /** Nothing but time has changed. */
    twostate predicate OnlyTimePassed()
      reads this, handlers, readBuf, writeBuf
    {
      && old(clock) <= clock
      && unchanged(`clientState, `isPingOutstanding, `isAutoReconnectEnabled, `nextPacketId, `keepAliveInterval,
          `options)
      && unchanged(`currentReconnectWaitInterval, `counterNetworkDisconnected, `pingTimer, `reconnectDelayTimer,
          `socketOpen)
      && unchanged(`log, `seen, `ids, `armed, `disconnectedAt, `rounds, `silence, `watching)
      && unchanged(`reentries, `tableEdits, `beforeEdit)
      && unchanged(handlers) && unchanged(readBuf) && unchanged(writeBuf)
    }

    /** Without keep-alive a cooperative network makes every round of an idle client succeed. */
    twostate predicate Smooth(rc: Rc)
      reads `clientState, `keepAliveInterval
    {
      cooperative && old(clientState) == ConnectedIdle && old(keepAliveInterval) == 0 ==>
        rc == MqttSuccess && clientState == ConnectedIdle && keepAliveInterval == 0
    }

    /** A reconnect round inside a yield. */
    method ReconnectStep(nesting: nat) returns (rc: Rc)
      requires Valid() && InYield() && clientState == PendingReconnect && currentReconnectWaitInterval <= maxWait
      modifies this, readBuf, writeBuf, handlers
      ensures RoundOutcome(rc) && rc != NetworkDisconnected && rc != MqttSuccess
      ensures Progress()
      ensures old(BackoffInv()) ==> BackoffInv()
      ensures NeverIdle()
      ensures old(Doomed()) ==> GaveUpConnected(rc, 1)
      ensures Undisturbed(nesting)
      decreases nesting, 25
    {
      hide FollowsCounter, Follows, StreamAt, HasNoHandler, IsReply, DigestOf, InboundOf, WireOf, Step, AckStep,
        RoundLeaves, Consistent, LowestFree, FirstCanBeAsked, Connectable, Doomed, GaveUpConnected;
      label Before:
      rc := HandleReconnect(nesting);
      if old(BackoffInv()) {
        if BackoffKept() {
          BackoffStaysConsistent();
        } else {
          FailedRoundStaysConsistent();
        }
      }
    }

    /** A connected round inside a yield; a noticed disconnect starts the back-off. */
    method ConnectedStep(timer: nat, nesting: nat) returns (rc: Rc)
      requires Valid() && InYield() && clientState != PendingReconnect
      modifies this, readBuf, writeBuf, handlers
      ensures RoundOutcome(rc) && Progress()
      ensures rc != NetworkDisconnected && rc != NetworkAttemptingReconnect ==> clientState == old(clientState)
      ensures rc != NetworkReconnected
      ensures rc == MqttSuccess ==> Checked()
      ensures old(BackoffInv()) ==> BackoffInv()
      ensures NeverIdle() && Smooth(rc)
      ensures Undisturbed(nesting)
      decreases nesting, 25
    {
      hide FollowsCounter, Follows, StreamAt, HasNoHandler, IsReply, DigestOf, InboundOf, WireOf, Step, AckStep,
        Consistent, Inv, AckInv, LowestFree, FirstCanBeAsked;
      rc := ReadKeepingBackoff(timer, nesting);
      assert Progress();
      if rc == NetworkDisconnected {
        rc := StartBackoff();
      }
    }

    method ReadKeepingBackoff(timer: nat, nesting: nat) returns (rc: Rc)
      requires Valid() && InYield() && clientState != PendingReconnect
      modifies this, readBuf, writeBuf, handlers
      ensures Progress()
      ensures rc == NetworkDisconnected ==> Inv() && AckInv() && clientState == DisconnectedError && !socketOpen
      ensures rc != NetworkDisconnected ==> RoundOutcome(rc) && clientState == old(clientState)
      ensures rc != NetworkAttemptingReconnect && rc != NetworkReconnected
      ensures rc == MqttSuccess ==> Checked()
      ensures old(BackoffInv()) ==> BackoffInv()
      ensures Smooth(rc)
      ensures Undisturbed(nesting)
      decreases nesting, 24
    {
      hide FollowsCounter, Follows, StreamAt, HasNoHandler, IsReply, DigestOf, InboundOf, WireOf, Step, AckStep,
        Consistent, RoundLeaves, IsCycleResult, IsTerminal;
      rc := ReadAndCheck(timer, nesting);
      CycleLeaves(rc, clientState, currentReconnectWaitInterval > maxWait);
      if old(BackoffInv()) {
        BackoffStaysConsistent();
      }
    }

    /** Time passes between two rounds. */
    method BeginRound()
      requires Valid()
      modifies `clock
      ensures clock > old(clock) && (cooperative ==> clock == old(clock) + 1)
      ensures old(InYield()) ==> InYield()
      ensures old(BackoffInv()) ==> BackoffInv()
      ensures old(Doomed()) ==> Doomed()
    {
      hide FollowsCounter, StreamAt, DigestOf, Consistent, LowestFree, FirstCanBeAsked, Connectable;
      Elapse();
      if old(BackoffInv()) {
        BackoffStaysConsistent();
      }
    }

    /** One round of the yield loop; `again` says whether the loop may go on. */
    method YieldRound(timer: nat, nesting: nat) returns (rc: Rc, again: bool)
      requires Valid() && InYield()
      modifies this, readBuf, writeBuf, handlers
      ensures RoundOutcome(rc) && Progress() && clock > old(clock)
      ensures again ==> InYield()
      ensures GoesOn(rc) ==> again
      ensures rc == MqttSuccess ==> Checked()
      ensures old(BackoffInv()) ==> BackoffInv()
      ensures old(GaveUp()) ==> rc == NetworkReconnectTimedOut && !again && OnlyTimePassed()
      ensures NeverIdle() && Smooth(rc)
      ensures old(Doomed()) ==> GaveUpConnected(rc, 2) && again
      ensures Undisturbed(nesting)
      decreases nesting, 26
    {
      hide FollowsCounter, Follows, StreamAt, HasNoHandler, IsReply, DigestOf, InboundOf, WireOf, Step, AckStep,
        Consistent, Inv, AckInv, LowestFree, FirstCanBeAsked, Connectable;
      BeginRound();
      if PendingReconnect == clientState {
        if maxWait < currentReconnectWaitInterval {
          return NetworkReconnectTimedOut, false;
        }
        rc := ReconnectStep(nesting);
        return rc, true;
      }
      rc := ConnectedStep(timer, nesting);
      again := rc == MqttSuccess || rc == NetworkAttemptingReconnect;
    }

    method InternalYield(timeoutMs: nat, nesting: nat) returns (rc: Rc)
      requires Valid() && InYield() && timeoutMs > 0
      modifies this, readBuf, writeBuf, handlers
      ensures RoundOutcome(rc) && Progress()
      ensures GoesOn(rc) ==> clock >= old(clock) + 1000 * timeoutMs
      ensures rc == MqttSuccess ==> Checked()
      ensures old(BackoffInv()) ==> BackoffInv()
      ensures old(GaveUp()) ==> rc == NetworkReconnectTimedOut && OnlyTimePassed()
      ensures NeverIdle()
      ensures old(Doomed()) && timeoutMs <= commandTimeoutMs ==>
                rc == NetworkReconnectTimedOut && clientState == ConnectedIdle
      ensures old(Doomed()) && old(options).keepAlive == 0 && 1000 * timeoutMs > 2 + 2000 * commandTimeoutMs ==>
                rc == MqttSuccess && clientState == ConnectedIdle
      ensures Undisturbed(nesting)
      decreases nesting, 28
    {
      hide FollowsCounter, Follows, StreamAt, HasNoHandler, IsReply, DigestOf, InboundOf, WireOf, Step, AckStep,
        RoundLeaves, Consistent, LowestFree, FirstCanBeAsked, Doomed;
      var timer := clock + 1000 * timeoutMs;
      var again;
      rc, again := RoundAndLook(timer, nesting);
      while again
        invariant Progress() && Undisturbed(nesting) && NeverIdle()
        invariant if again then InYield() else RoundOutcome(rc)
        invariant !again ==> (GoesOn(rc) ==> clock >= timer) && (rc == MqttSuccess ==> Checked())
        invariant old(BackoffInv()) ==> BackoffInv()
        invariant old(GaveUp()) ==> OnlyTimePassed() && !again && rc == NetworkReconnectTimedOut
        invariant old(Doomed()) && timeoutMs <= commandTimeoutMs ==>
                    !again && rc == NetworkReconnectTimedOut && clientState == ConnectedIdle
        invariant old(Doomed()) && old(options).keepAlive == 0 && 1000 * timeoutMs > 2 + 2000 * commandTimeoutMs ==>
                    clientState == ConnectedIdle && keepAliveInterval == 0 && (again || rc == MqttSuccess)
        decreases again, timer - clock
      {
        rc, again := RoundAndLook(timer, nesting);
      }
    }

    /** A round, and then a look at the time, so that there is at least one round. */
    method RoundAndLook(timer: nat, nesting: nat) returns (rc: Rc, again: bool)
      requires Valid() && InYield()
      modifies this, readBuf, writeBuf, handlers
      ensures RoundOutcome(rc) && Progress() && clock > old(clock)
      ensures again ==> InYield() && clock < timer
      ensures GoesOn(rc) && !again ==> clock >= timer
      ensures rc == MqttSuccess ==> Checked()
      ensures old(BackoffInv()) ==> BackoffInv()
      ensures old(GaveUp()) ==> rc == NetworkReconnectTimedOut && !again && OnlyTimePassed()
      ensures NeverIdle() && Smooth(rc)
      ensures old(Doomed()) ==> GaveUpConnected(rc, 2) && (again <==> clock < timer)
      ensures Undisturbed(nesting)
      decreases nesting, 27
    {
      hide FollowsCounter, Follows, StreamAt, HasNoHandler, IsReply, DigestOf, InboundOf, WireOf, Step, AckStep,
        RoundLeaves, Consistent, IsTerminal, GoesOn, IsConnected, LowestFree, FirstCanBeAsked, Doomed;
      rc, again := YieldRound(timer, nesting);
      assert Progress();
      if again {
        var expired := LookAtTimer(timer);
        again := !expired;
      }
    }

    method LookAtTimer(timer: nat) returns (expired: bool)
      requires Valid()
      modifies `clock
      ensures clock >= old(clock)
      ensures expired <==> clock >= timer
      ensures cooperative ==> clock == old(clock)
      ensures old(BackoffInv()) ==> BackoffInv()
    {
      hide FollowsCounter, StreamAt, DigestOf, Consistent;
      expired := HasTimerExpired(timer);
      if old(BackoffInv()) {
        BackoffStaysConsistent();
      }
    }

    /** How the result of a yield describes the state it leaves. */
    ghost predicate YieldOutcome(rc: Rc)
      reads this
    {
      YieldLeaves(rc, clientState, currentReconnectWaitInterval > maxWait)
    }

    method Yield(timeoutMs: nat, nesting: nat) returns (rc: Rc)
      requires Valid() && Callable()
      modifies this, readBuf, writeBuf, handlers
      ensures Callable() && Progress()
      ensures timeoutMs == 0 ==> rc == NullValueError
      ensures timeoutMs > 0 && old(clientState) == WaitForCbReturn ==> rc == ClientNotIdle
      ensures timeoutMs > 0 && old(clientState) == DisconnectedManually ==> rc == NetworkManuallyDisconnected
      ensures timeoutMs > 0 && (old(clientState) == Initialized || old(clientState) == DisconnectedError) ==>
                rc == NetworkDisconnected
      ensures timeoutMs == 0 || (old(clientState) != ConnectedIdle && old(clientState) != PendingReconnect) ==>
                Untouched()
      ensures old(clientState) != WaitForCbReturn ==> Stable()
      ensures timeoutMs > 0 && (old(clientState) == ConnectedIdle || old(clientState) == PendingReconnect) ==>
                YieldOutcome(rc)
      ensures rc == MqttSuccess ==> Checked()
      ensures GoesOn(rc) ==> clock >= old(clock) + 1000 * timeoutMs
      ensures old(BackoffInv()) ==> BackoffInv()
      ensures timeoutMs > 0 && old(GaveUp()) ==> rc == NetworkReconnectTimedOut && OnlyTimePassed()
      ensures timeoutMs > 0 && (old(clientState) == ConnectedIdle || old(clientState) == PendingReconnect) &&
              LowestFree(old(handlers[..])) == 0 && reentries == old(reentries) ==>
                rc != UnexpectedClientState && (rc == NetworkReconnectTimedOut ==> clientState == PendingReconnect)
      ensures timeoutMs > 0 && old(Doomed()) && timeoutMs <= commandTimeoutMs ==>
                rc == NetworkReconnectTimedOut && clientState == ConnectedIdle && socketOpen
      ensures old(Doomed()) && old(options).keepAlive == 0 && 1000 * timeoutMs > 2 + 2000 * commandTimeoutMs ==>
                rc == UnexpectedClientState && clientState == ConnectedIdle && socketOpen
      ensures Undisturbed(nesting)
      decreases nesting, 30
    {
      hide FollowsCounter, Follows, StreamAt, HasNoHandler, IsReply, DigestOf, InboundOf, WireOf, Step, AckStep,
        Consistent, Inv, AckInv, LowestFree, FirstCanBeAsked, Connectable;
      if timeoutMs == 0 {
        return NullValueError;
      }
      var state := clientState;
      if DisconnectedManually == state {
        return NetworkManuallyDisconnected;
      }
      if PendingReconnect != state {
        if !IsConnected(clientState) {
          return NetworkDisconnected;
        }
        if ConnectedIdle != state {
          return ClientNotIdle;
        }
        rc := SetClientState(ConnectedIdle, YieldInProgress);
        if rc != MqttSuccess {
          return;
        }
      }
      rc := YieldAndRest(timeoutMs, nesting);
    }

    /** The yield proper and the state change that ends it, which fails when the client is no longer
        in the yield's own state. */
    method YieldAndRest(timeoutMs: nat, nesting: nat) returns (yieldRc: Rc)
      requires Valid() && InYield() && timeoutMs > 0
      modifies this, readBuf, writeBuf, handlers
      ensures Stable() && Progress() && YieldOutcome(yieldRc)
      ensures GoesOn(yieldRc) || yieldRc == UnexpectedClientState ==> clock >= old(clock) + 1000 * timeoutMs
      ensures yieldRc == MqttSuccess || yieldRc == UnexpectedClientState ==> Checked()
      ensures old(BackoffInv()) ==> BackoffInv()
      ensures old(GaveUp()) ==> yieldRc == NetworkReconnectTimedOut && OnlyTimePassed()
      ensures LowestFree(old(handlers[..])) == 0 && reentries == old(reentries) && old(clientState) != ConnectedIdle ==>
                && yieldRc != UnexpectedClientState
                && (yieldRc == NetworkReconnectTimedOut ==> clientState == PendingReconnect)
      ensures old(Doomed()) && timeoutMs <= commandTimeoutMs ==>
                yieldRc == NetworkReconnectTimedOut && clientState == ConnectedIdle
      ensures old(Doomed()) && old(options).keepAlive == 0 && 1000 * timeoutMs > 2 + 2000 * commandTimeoutMs ==>
                yieldRc == UnexpectedClientState && clientState == ConnectedIdle
      ensures Undisturbed(nesting)
      decreases nesting, 29
    {
      hide FollowsCounter, Follows, StreamAt, HasNoHandler, IsReply, DigestOf, InboundOf, WireOf, Step, AckStep,
        Consistent, Inv, AckInv, Growth, Progress, BackoffKept, Undisturbed, JustConnected, ConnectQuiet, LowestFree,
        FirstCanBeAsked;
      yieldRc := InternalYield(timeoutMs, nesting);
      assert Progress();
      EndOfYield(yieldRc, clientState, currentReconnectWaitInterval > maxWait);
      if NetworkDisconnected != yieldRc && NetworkAttemptingReconnect != yieldRc {
        var rc := SetClientState(YieldInProgress, ConnectedIdle);
        if MqttSuccess == yieldRc && MqttSuccess != rc {
          yieldRc := rc;
        }
      }
    }
  }
}
