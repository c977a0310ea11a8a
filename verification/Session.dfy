/** Whole runs of a client: initialisation, then any sequence of public calls with any arguments, any
    network results and handlers that call back to any depth. */
module Session {
  import opened Prelude
  import opened RemainingLength
  import opened Wire
  import opened PacketIds
  import opened SubscriptionTable
  import opened SubscribeCodec
  import opened ConnectCodec
  import opened Backoff
  import opened KeepAlive
  import opened EventLog
  import opened ClientStates
  import opened Client
  import Framer

  /** A public call: one that handlers may make too, or a disconnect. */
  datatype Action = Make(call: Call) | MakeDisconnect

  /** The change of the handler table that a call with this result has completed. */
  function EditOf(action: Action, rc: Rc): (edit: Option<TableOp>) {
    if rc != MqttSuccess || action.MakeDisconnect? then None
    else
      match action.call
      case CallSubscribe(s) => Some(TableOp.Subscribe(s))
      case CallUnsubscribe(filter) => Some(TableOp.Unsubscribe(filter))
      case _ => None
  }

  function WithEdit(t: seq<Slot>, edit: Option<TableOp>): (r: seq<Slot>)
    ensures |r| == |t|
  {
    match edit case None => t case Some(op) => Apply(t, op)
  }

  /** The completed subscribes and unsubscribes of a run, in order. */
  function Completed(actions: seq<Action>, rcs: seq<Rc>): (ops: seq<TableOp>)
    requires |rcs| == |actions|
  {
    if |actions| == 0 then []
    else
      var n := |actions| - 1;
      var ops := Completed(actions[..n], rcs[..n]);
      match EditOf(actions[n], rcs[n]) case None => ops case Some(op) => ops + [op]
  }

  lemma CompletedStep(actions: seq<Action>, rcs: seq<Rc>, action: Action, rc: Rc, t: seq<Slot>)
    requires |rcs| == |actions|
    ensures RunTable(t, Completed(actions + [action], rcs + [rc]))
         == WithEdit(RunTable(t, Completed(actions, rcs)), EditOf(action, rc))
  {
    hide Apply, RunTable, EditOf;
    var longer, longerRcs := actions + [action], rcs + [rc];
    assert longer[..|actions|] == actions && longerRcs[..|actions|] == rcs;
    if EditOf(action, rc).Some? {
      RunTableAppend(t, Completed(actions, rcs), EditOf(action, rc).value);
    }
  }

  lemma {:induction false} NoUnsubscribeCompleted(actions: seq<Action>, rcs: seq<Rc>)
    requires |rcs| == |actions|
    requires forall a | a in actions :: !(a.Make? && a.call.CallUnsubscribe?)
    ensures forall op | op in Completed(actions, rcs) :: op.Subscribe?
    decreases |actions|
  {
    if |actions| > 0 {
      var n := |actions| - 1;
      assert actions[n] in actions;
      assert forall a | a in actions[..n] :: a in actions;
      NoUnsubscribeCompleted(actions[..n], rcs[..n]);
    }
  }

  // ---------- One call ----------

  method PerformSubscribe(client: MqttClient, s: Subscription, nesting: nat) returns (rc: Rc)
    requires client.Valid() && client.Stable() && client.BackoffInv()
    modifies client, client.readBuf, client.writeBuf, client.handlers
    ensures client.Stable() && client.BackoffInv() && client.reentries >= old(client.reentries)
    ensures client.reentries == old(client.reentries) ==>
              client.handlers[..] == WithEdit(old(client.handlers[..]), EditOf(Make(CallSubscribe(s)), rc))
    ensures nesting == 0 ==> client.reentries == old(client.reentries)
  {
    hide FollowsCounter, Follows, StreamAt, DigestOf, InboundOf, WireOf, Step, AckStep, Consistent, LowestFree, Live;
    rc := client.Subscribe(s, nesting);
    client.BackoffStaysConsistent();
  }

  method PerformUnsubscribe(client: MqttClient, filter: Text, nesting: nat) returns (rc: Rc)
    requires client.Valid() && client.Stable() && client.BackoffInv()
    modifies client, client.readBuf, client.writeBuf, client.handlers
    ensures client.Stable() && client.BackoffInv() && client.reentries >= old(client.reentries)
    ensures client.reentries == old(client.reentries) ==>
              client.handlers[..] == WithEdit(old(client.handlers[..]), EditOf(Make(CallUnsubscribe(filter)), rc))
    ensures nesting == 0 ==> client.reentries == old(client.reentries)
  {
    hide FollowsCounter, Follows, StreamAt, DigestOf, InboundOf, WireOf, Step, AckStep, Consistent, LowestFree;
    rc := client.Unsubscribe(filter, nesting);
    client.BackoffStaysConsistent();
  }

  /** Any other call. */
  method PerformOther(client: MqttClient, call: Call, nesting: nat) returns (rc: Rc)
    requires client.Valid() && client.Stable() && client.BackoffInv()
    requires !call.CallSubscribe? && !call.CallUnsubscribe?
    modifies client, client.readBuf, client.writeBuf, client.handlers
    ensures client.Stable() && client.BackoffInv() && client.Progress()
    ensures nesting == 0 ==> client.reentries == old(client.reentries)
  {
    hide FollowsCounter, Follows, StreamAt, DigestOf, InboundOf, WireOf, Step, AckStep, Consistent, LowestFree;
    if call.CallYield? {
      rc := client.Yield(call.timeoutMs, nesting);
      return;
    }
    match call {
      case CallPublish(topic, params) =>
        var id;
        rc, id := client.Publish(topic, params, nesting);
      case CallResubscribe =>
        ghost var asked;
        rc, asked := client.Resubscribe(nesting);
      case CallConnect(newOptions) =>
        rc := client.Connect(newOptions, nesting);
      case CallAttemptReconnect =>
        rc := client.AttemptReconnect(nesting);
      case CallSetConnectParams(newOptions) =>
        client.options := newOptions;
        rc := MqttSuccess;
      case CallSetAutoReconnect(status) =>
        client.isAutoReconnectEnabled := status;
        rc := MqttSuccess;
    }
    client.BackoffStaysConsistent();
  }

  method PerformDisconnect(client: MqttClient) returns (rc: Rc)
    requires client.Valid() && client.Stable() && client.BackoffInv()
    modifies client, client.writeBuf
    ensures client.Stable() && client.BackoffInv() && client.Progress()
    ensures client.reentries == old(client.reentries)
  {
    hide FollowsCounter, Follows, StreamAt, DigestOf, InboundOf, WireOf, Step, AckStep, Consistent;
    rc := client.Disconnect();
    client.BackoffStaysConsistent();
  }

  /** Any public call keeps the invariant. Unless a handler calls back, its result tells exactly what
      has become of the table. */
  method Perform(client: MqttClient, action: Action, nesting: nat) returns (rc: Rc)
    requires client.Valid() && client.Stable() && client.BackoffInv()
    modifies client, client.readBuf, client.writeBuf, client.handlers
    ensures client.Stable() && client.BackoffInv() && client.reentries >= old(client.reentries)
    ensures client.reentries == old(client.reentries) ==>
              client.handlers[..] == WithEdit(old(client.handlers[..]), EditOf(action, rc))
    ensures nesting == 0 ==> client.reentries == old(client.reentries)
  {
    hide FollowsCounter, Follows, StreamAt, DigestOf, InboundOf, WireOf, Step, AckStep, Consistent, LowestFree, Apply;
    if action.MakeDisconnect? {
      rc := PerformDisconnect(client);
    } else if action.call.CallSubscribe? {
      rc := PerformSubscribe(client, action.call.subscription, nesting);
    } else if action.call.CallUnsubscribe? {
      rc := PerformUnsubscribe(client, action.call.filter, nesting);
    } else {
      rc := PerformOther(client, action.call, nesting);
    }
  }

  // ---------- Runs ----------

  /** What holds after every run, stated on what can be observed of a client. */
  ghost predicate AtRest(client: MqttClient)
    requires client.Valid()
    reads client
  {
    && AtRestState(client.clientState)
    && (IsConnected(client.clientState) <==> client.socketOpen)
    && Unanswered(client.log) == Bit(client.isPingOutstanding)
    && (client.socketOpen ==> Follows(client.silence, client.WatchNow(), 1000000 * client.keepAliveInterval))
    && (forall k | 0 <= k < |client.ids| :: client.ids[k] == IdAfter(k + 1))
    && (client.reentries == 0 ==> AcknowledgedInOrder(client.log))
    && (client.packets.Some? ==>
          && client.consumed <= |client.packets.value|
          && InboundsOf(client.log) == StreamInbounds(client.packets.value[..client.consumed])
          && OwedIds(client.log) == OwedForAll(StreamInbounds(client.packets.value[..client.consumed])))
    && (client.armed ==> Consistent(client.BackoffHistory(), client.minWait, client.maxWait, client.clock))
  }

  lemma StableIsAtRest(client: MqttClient)
    requires client.Valid() && client.Stable() && client.BackoffInv()
    ensures AtRest(client)
  {
    hide FollowsCounter, Follows, DigestOf, Step, AckStep, Consistent;
    client.HistoryAtRest();
  }

  /** What a table holds after the given completed operations: it stands for the multiset that the same
      operations make of nothing, and without an unsubscribe a resubscription covers all of it. */
  ghost predicate TableAfter(t: seq<Slot>, slots: nat, ops: seq<TableOp>) {
    var empty: seq<Slot> := seq(slots, _ => None);
    && t == RunTable(empty, ops)
    && MultisetRun(LiveAlong(empty, ops), ops, slots)
    && Live(t) == LiveAlong(empty, ops)[|ops|]
    && ((forall op | op in ops :: op.Subscribe?) ==> OccupiedIsPrefix(t) && Live(t[..LowestFree(t)]) == Live(t))
  }

  lemma RunTableIsTableAfter(slots: nat, ops: seq<TableOp>)
    ensures TableAfter(RunTable(seq(slots, _ => None), ops), slots, ops)
  {
    hide RunTable, MultisetRun, LiveAlong, Live, LowestFree;
    var empty: seq<Slot> := seq(slots, _ => None);
    TableRefinesMultiset(empty, ops);
    if forall op | op in ops :: op.Subscribe? {
      SubscribesKeepPrefix(empty, ops);
      ResubscribeCoversAllIffPrefix(RunTable(empty, ops));
    }
  }

  /** The main invariant. After initialisation and any sequence of public calls the client is at rest
      in one of five states, is connected exactly when its socket is open, and its history is in
      order. In a run whose handlers never call back, which is every run with no nesting, the table is
      the result of the calls that succeeded, and so stands for the multiset of live subscriptions. */
  method Run(txSize: nat, rxSize: nat, slots: nat, minWait: nat, maxWait: nat, commandTimeoutMs: nat,
             autoReconnect: bool, staleInterval: nat, now: nat, cooperative: bool,
             packets: Option<seq<Framer.WirePacket>>, actions: seq<Action>, nestings: seq<nat>)
    returns (client: MqttClient, rcs: seq<Rc>)
    requires 5 <= txSize <= LIMIT && 5 <= rxSize <= LIMIT
    requires 0 < minWait <= maxWait && 2 * maxWait < WORD && staleInterval < WORD
    requires packets.Some? ==> !cooperative && Fitting(packets.value, rxSize)
    requires |nestings| == |actions|
    ensures client.packets == packets
    ensures client.Valid() && client.minWait == minWait && client.maxWait == maxWait
    ensures AtRest(client)
    ensures |rcs| == |actions|
    ensures client.reentries == 0 ==> TableAfter(client.handlers[..], slots, Completed(actions, rcs))
    ensures client.reentries == 0 && (forall a | a in actions :: !(a.Make? && a.call.CallUnsubscribe?)) ==>
              OccupiedIsPrefix(client.handlers[..])
    ensures (forall i | 0 <= i < |nestings| :: nestings[i] == 0) ==> client.reentries == 0
  {
    hide FollowsCounter, Follows, StreamAt, DigestOf, InboundOf, WireOf, Step, AckStep, Consistent, LowestFree, AtRest,
      Apply, RunTable, Completed, EditOf, WithEdit, OccupiedIsPrefix, Live;
    client := new MqttClient(txSize, rxSize, slots, minWait, maxWait, commandTimeoutMs, autoReconnect,
                             staleInterval, now, cooperative, packets);
    rcs := [];
    ghost var empty: seq<Slot> := seq(slots, _ => None);
    NothingCompleted(empty);
    assert actions[..0] == [];
    var i := 0;
    while i < |actions|
      invariant i <= |actions| && |rcs| == i
      invariant client.Valid() && client.Stable() && client.BackoffInv()
      invariant client.minWait == minWait && client.maxWait == maxWait && client.packets == packets
      invariant client.reentries == 0 ==> client.handlers[..] == RunTable(empty, Completed(actions[..i], rcs))
      invariant (forall k | 0 <= k < i :: nestings[k] == 0) ==> client.reentries == 0
      invariant fresh(client) && fresh(client.readBuf) && fresh(client.writeBuf) && fresh(client.handlers)
    {
      var rc := Perform(client, actions[i], nestings[i]);
      CompletedStep(actions[..i], rcs, actions[i], rc, empty);
      assert actions[..i] + [actions[i]] == actions[..i + 1];
      rcs := rcs + [rc];
      i := i + 1;
    }
    assert actions[..i] == actions;
    StableIsAtRest(client);
    RunTableIsTableAfter(slots, Completed(actions, rcs));
    if forall a | a in actions :: !(a.Make? && a.call.CallUnsubscribe?) {
      NoUnsubscribeCompleted(actions, rcs);
    }
  }

  lemma NothingCompleted(t: seq<Slot>)
    ensures RunTable(t, Completed([], [])) == t
  {
  }

  // ---------- After giving up ----------

  /** A call that can end a given-up reconnection. */
  predicate Connects(action: Action) {
    action.Make? && (action.call.CallConnect? || action.call.CallAttemptReconnect?)
  }

  predicate IsYield(action: Action) {
    action.Make? && action.call.CallYield? && action.call.timeoutMs > 0
  }

  /** Nothing that others can see has happened, and the table is as before. */
  twostate predicate Silent(client: MqttClient)
    requires client.Valid()
    reads client, client.handlers
  {
    && client.log == old(client.log) && client.ids == old(client.ids)
    && client.handlers[..] == old(client.handlers[..])
  }

  method PerformGivenUp(client: MqttClient, action: Action, nesting: nat) returns (rc: Rc)
    requires client.Valid() && client.Stable() && client.GaveUp() && !Connects(action)
    modifies client, client.readBuf, client.writeBuf, client.handlers
    ensures client.Stable() && client.GaveUp() && Silent(client)
    ensures IsYield(action) ==> rc == NetworkReconnectTimedOut
    ensures rc == MqttSuccess ==>
              action.Make? && (action.call.CallSetConnectParams? || action.call.CallSetAutoReconnect?)
  {
    hide FollowsCounter, Follows, StreamAt, DigestOf, InboundOf, WireOf, Step, AckStep, Consistent, LowestFree, Live;
    if action.MakeDisconnect? {
      rc := client.Disconnect();
      return;
    }
    match action.call {
      case CallPublish(topic, params) =>
        var id;
        rc, id := client.Publish(topic, params, nesting);
      case CallSubscribe(s) =>
        rc := client.Subscribe(s, nesting);
      case CallUnsubscribe(filter) =>
        rc := client.Unsubscribe(filter, nesting);
      case CallResubscribe =>
        ghost var asked;
        rc, asked := client.Resubscribe(nesting);
      case CallYield(timeoutMs) =>
        rc := client.Yield(timeoutMs, nesting);
      case CallSetConnectParams(newOptions) =>
        client.options := newOptions;
        rc := MqttSuccess;
      case CallSetAutoReconnect(status) =>
        client.isAutoReconnectEnabled := status;
        rc := MqttSuccess;
    }
  }

  /** Once reconnecting has been given up, and until the application connects or asks for a reconnect,
      the network is not touched and every yield reports the time-out, whatever else is called. */
  method RunGivenUp(client: MqttClient, actions: seq<Action>, nestings: seq<nat>) returns (rcs: seq<Rc>)
    requires client.Valid() && client.Stable() && client.GaveUp()
    requires |nestings| == |actions| && forall a | a in actions :: !Connects(a)
    modifies client, client.readBuf, client.writeBuf, client.handlers
    ensures client.Stable() && client.GaveUp() && Silent(client)
    ensures |rcs| == |actions|
    ensures forall i | 0 <= i < |actions| && IsYield(actions[i]) :: rcs[i] == NetworkReconnectTimedOut
  {
    hide FollowsCounter, Follows, StreamAt, DigestOf, InboundOf, WireOf, Step, AckStep, Consistent;
    rcs := [];
    var i := 0;
    while i < |actions|
      invariant i <= |actions| && |rcs| == i
      invariant client.Stable() && client.GaveUp() && Silent(client)
      invariant forall j | 0 <= j < i && IsYield(actions[j]) :: rcs[j] == NetworkReconnectTimedOut
    {
      assert actions[i] in actions;
      var rc := PerformGivenUp(client, actions[i], nestings[i]);
      rcs := rcs + [rc];
      i := i + 1;
    }
  }

  // ---------- A handler that reconnects by hand ----------

  /** A client that has connected on a network that works. */
  method ConnectedWitness() returns (client: MqttClient)
    ensures fresh(client) && fresh(client.readBuf) && fresh(client.writeBuf) && fresh(client.handlers)
    ensures client.Valid() && client.Stable() && client.clientState == ConnectedIdle
    ensures client.cooperative && client.writeBuf.Length == 2248 && client.handlers.Length == 6
    ensures !client.isAutoReconnectEnabled && client.WillConnect(client.options) && LowestFree(client.handlers[..]) == 0
    ensures client.maxWait == client.commandTimeoutMs == 20000 && client.currentReconnectWaitInterval == 16000
    ensures client.reconnectDelayTimer == 0
  {
    hide FollowsCounter, Follows, StreamAt, DigestOf, InboundOf, WireOf, Step, AckStep, LowestFree, Begun;
    client := new MqttClient(2248, 2248, 6, 1000, 20000, 20000, false, 16000, 0, true, None);
    DefaultsAreConnectable(client);
    EmptyTableIsFree(6);
    var rc := client.Connect(None, 0);
  }

  /** On a network that works, a client without automatic reconnecting whose disconnect handler
      reconnects ends up with an open connection that it takes for closed. The call stands where a
      yield that notices a disconnect calls `HandleDisconnect`; it is made directly because the yield of
      the model has a handler that does not call the client, so no public call of the model leads here. */
  method ReconnectingHandlerWitness() returns (client: MqttClient)
    ensures client.clientState == DisconnectedError && !IsConnected(client.clientState) && client.socketOpen
  {
    hide FollowsCounter, Follows, StreamAt, DigestOf, InboundOf, WireOf, Step, AckStep, LowestFree;
    client := ConnectedWitness();
    var rc;
    ghost var attempt;
    rc, attempt := client.HandleDisconnectReconnecting(0);
  }

  // ---------- Giving up on an open connection ----------

  const WATCHED: Text := [97]
  const WITHOUT_KEEP_ALIVE: ConnectOptions := DEFAULT_OPTIONS.(keepAlive := 0)

  /** A connection that is granted its first subscription. */
  method GrantOne(client: MqttClient)
    requires client.Valid() && client.Stable() && client.clientState == ConnectedIdle
    requires client.cooperative && client.commandTimeoutMs > 0 && client.writeBuf.Length == 2248
    requires client.handlers.Length > 0 && LowestFree(client.handlers[..]) == 0
    modifies client, client.readBuf, client.writeBuf, client.handlers
    ensures client.Stable() && client.clientState == ConnectedIdle && !client.grants && client.BackoffKept()
    ensures client.FirstCanBeAsked(client.handlers[..])
  {
    hide FollowsCounter, Follows, StreamAt, DigestOf, InboundOf, WireOf, Step, AckStep, LowestFree, Live, Exchanged,
      MqttClient.Inv, MqttClient.AckInv, MqttClient.CanAsk;
    client.grants := true;
    ShortFilterCanBeAsked(client);
    label Asked:
    var s := Subscription(WATCHED, QOS0, 0);
    var rc := client.Subscribe(s, 0);
    assert client.handlers[..] == old@Asked(client.handlers[..])[0 := Some(s)];
    StoredFirst(old@Asked(client.handlers[..]), s);
    client.grants := false;
  }

  lemma StoredFirst(t: seq<Slot>, s: Subscription)
    requires |t| > 0
    ensures LowestFree(t[0 := Some(s)]) > 0
  {
  }

  /** A client that has subscribed and disconnected, on a network that works. */
  method SubscribedWitness() returns (client: MqttClient)
    ensures fresh(client) && fresh(client.readBuf) && fresh(client.writeBuf) && fresh(client.handlers)
    ensures client.Valid() && client.Stable() && client.clientState == DisconnectedManually
    ensures client.cooperative && !client.grants && client.writeBuf.Length == 2248
    ensures client.maxWait == client.commandTimeoutMs == 20000 && client.currentReconnectWaitInterval == 16000
    ensures client.reconnectDelayTimer == 0 && client.FirstCanBeAsked(client.handlers[..])
  {
    hide FollowsCounter, Follows, StreamAt, DigestOf, InboundOf, WireOf, Step, AckStep, LowestFree,
      MqttClient.FirstCanBeAsked, MqttClient.WillConnect;
    client := ConnectedWitness();
    assert client.commandTimeoutMs == 20000;
    GrantOne(client);
    var rc := client.Disconnect();
  }

  /** The application asks once for a reconnection with parameters that cannot be sent and then sets
      good ones without keep-alive. */
  method PendingWitness() returns (client: MqttClient)
    ensures fresh(client) && fresh(client.readBuf) && fresh(client.writeBuf) && fresh(client.handlers)
    ensures client.Valid() && client.Stable() && client.Doomed()
    ensures client.options.keepAlive == 0 && client.commandTimeoutMs == 20000
  {
    hide FollowsCounter, Follows, StreamAt, DigestOf, InboundOf, WireOf, Step, AckStep, LowestFree, Begun,
      MqttClient.Inv, MqttClient.AckInv, MqttClient.FirstCanBeAsked, MqttClient.Resubscribed;
    client := SubscribedWitness();
    client.options := DEFAULT_OPTIONS.(version := 3);
    var rc := client.AttemptReconnect(0);
    client.options := WITHOUT_KEEP_ALIVE;
    ConnectableWithoutKeepAlive(client);
  }

  /** The broker has stopped answering SUBSCRIBE packets, so that the last round of the yield connects,
      fails to resubscribe and gives up. A yield no longer than the command time-out then reports that the
      reconnection has timed out, and one longer than two of them the unexpected state, on a client that
      is connected. */
  method GivingUpOnOpenConnectionWitness(timeoutMs: nat) returns (client: MqttClient, rc: Rc)
    ensures 0 < timeoutMs <= 20000 ==> rc == NetworkReconnectTimedOut
    ensures timeoutMs > 40001 ==> rc == UnexpectedClientState
    ensures 0 < timeoutMs <= 20000 || timeoutMs > 40001 ==> client.clientState == ConnectedIdle && client.socketOpen
  {
    hide FollowsCounter, Follows, StreamAt, DigestOf, InboundOf, WireOf, Step, AckStep, LowestFree, Begun,
      MqttClient.Inv, MqttClient.AckInv, MqttClient.Doomed;
    client := PendingWitness();
    rc := client.Yield(timeoutMs, 0);
  }

  lemma ConnectableWithoutKeepAlive(client: MqttClient)
    requires client.writeBuf.Length == 2248
    ensures client.Connectable(WITHOUT_KEEP_ALIVE)
  {
    EstimateIsExactUnlessAtBoundary(12);
    ConnectLengthIsBodyLength(WITHOUT_KEEP_ALIVE);
  }

  lemma ShortFilterCanBeAsked(client: MqttClient)
    requires client.writeBuf.Length == 2248
    ensures client.CanAsk(Request(WATCHED, QOS0))
  {
    EstimateIsExactUnlessAtBoundary(6);
  }

  lemma DefaultsAreConnectable(client: MqttClient)
    requires client.writeBuf.Length == 2248
    ensures client.Connectable(DEFAULT_OPTIONS)
  {
    EstimateIsExactUnlessAtBoundary(12);
    ConnectLengthIsBodyLength(DEFAULT_OPTIONS);
  }

  lemma EmptyTableIsFree(slots: nat)
    requires slots > 0
    ensures LowestFree(seq(slots, _ => None)) == 0
  {
  }
}
