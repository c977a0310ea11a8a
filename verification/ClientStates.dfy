/** The client's states, and what return codes say about them. */
module ClientStates {
  import opened Prelude
  import opened Wire
  import Framer

  datatype ClientState =
    | Invalid
    | Initialized
    | Connecting
    | ConnectedIdle
    | YieldInProgress
    | PublishInProgress
    | SubscribeInProgress
    | UnsubscribeInProgress
    | ResubscribeInProgress
    | WaitForCbReturn
    | Disconnecting
    | DisconnectedError
    | DisconnectedManually
    | PendingReconnect

  predicate IsConnected(s: ClientState) {
    match s
    case ConnectedIdle | YieldInProgress | PublishInProgress | SubscribeInProgress
      | UnsubscribeInProgress | ResubscribeInProgress | WaitForCbReturn => true
    case _ => false
  }

  predicate ValidForConnect(s: ClientState) {
    s == Initialized || s == DisconnectedError || s == DisconnectedManually || s == PendingReconnect
  }

  /** The states a client can be in while no call is in progress. */
  predicate AtRestState(s: ClientState) {
    ValidForConnect(s) || s == ConnectedIdle
  }

  /** Whether a call that needs an idle client may go ahead. */
  predicate MayOperate(s: ClientState) {
    s == ConnectedIdle || s == WaitForCbReturn
  }

  // ---------- Return codes ----------

  /** The packet types that a blocking call waits for. */
  predicate IsAwaited(t: nat) {
    t == CONNACK || t == PUBACK || t == SUBACK || t == UNSUBACK
  }

  /** What one read cycle can report; in particular never that the network is disconnected. */
  predicate IsCycleResult(rc: Rc) {
    || rc == MqttSuccess || rc == MqttFailure || rc == RxBufferTooShort || rc == TxBufferTooShort
    || rc == DecodeRemainingLengthError || rc == PacketTypeInvalid || Framer.IsReadResult(rc)
  }

  /** The results of an operation that sends a request and waits for its acknowledgement. */
  predicate IsOperationResult(rc: Rc) {
    || rc == MqttSuccess || rc == MqttFailure || rc == RxBufferTooShort || rc == TxBufferTooShort
    || rc == DecodeRemainingLengthError || rc == RequestTimeout
  }

  /** Errors of the secured connection are final: it must be closed. */
  predicate IsTerminal(rc: Rc) {
    || rc == NetworkSslReadError || rc == NetworkSslReadTimeout
    || rc == NetworkSslWriteError || rc == NetworkSslWriteTimeout
  }

  /** Results with which a yield goes on until its time is up. */
  predicate GoesOn(rc: Rc) {
    rc == MqttSuccess || rc == NetworkReconnected || rc == NetworkAttemptingReconnect
  }

  // ---------- What the result of a yield says ----------

  /** The state that a round of a yield with this result leaves; `tooLong` says whether the reconnect
      interval exceeds its maximum. A round whose resubscription fails leaves a connected client, even
      when it is the one that gives up. */
  predicate RoundLeaves(rc: Rc, s: ClientState, tooLong: bool) {
    if rc == NetworkDisconnected then s == DisconnectedError
    else if rc == NetworkReconnected then s == YieldInProgress
    else if rc == NetworkAttemptingReconnect || rc == NetworkManuallyDisconnected then s == PendingReconnect
    else if rc == NetworkReconnectTimedOut then tooLong && (s == PendingReconnect || s == ConnectedIdle)
    else rc != UnexpectedClientState && !IsTerminal(rc) && (s == YieldInProgress || s == ConnectedIdle)
  }

  /** The state that a yield with this result leaves: connected and idle unless the result says
      otherwise. Only the timed-out code leaves it open whether the client is connected. */
  predicate YieldLeaves(rc: Rc, s: ClientState, tooLong: bool) {
    if rc == NetworkDisconnected then s == DisconnectedError
    else if rc == NetworkAttemptingReconnect || rc == NetworkManuallyDisconnected then s == PendingReconnect
    else if rc == NetworkReconnectTimedOut then tooLong && (s == PendingReconnect || s == ConnectedIdle)
    else !IsTerminal(rc) && s == ConnectedIdle
  }

  lemma CycleLeaves(rc: Rc, s: ClientState, tooLong: bool)
    ensures RoundLeaves(NetworkDisconnected, DisconnectedError, tooLong)
    ensures IsCycleResult(rc) && !IsTerminal(rc) && (s == YieldInProgress || s == ConnectedIdle) ==>
              && RoundLeaves(rc, s, tooLong)
              && rc != NetworkDisconnected && rc != NetworkReconnected && rc != NetworkAttemptingReconnect
  {
  }

  /** A result of a reconnect attempt, as the result of a round that has not given up. */
  lemma AttemptLeaves(rc: Rc)
    ensures RoundLeaves(NetworkReconnected, YieldInProgress, false)
    ensures RoundLeaves(NetworkAttemptingReconnect, PendingReconnect, false)
    ensures IsOperationResult(rc) && rc != MqttSuccess ==>
              RoundLeaves(rc, ConnectedIdle, false) && rc != NetworkDisconnected && rc != NetworkReconnected
  {
  }

  /** A failed round that gives up leaves what the attempt has left. */
  lemma GivingUpLeaves(rc: Rc, s: ClientState)
    requires RoundLeaves(rc, s, false) && rc != NetworkDisconnected
    ensures rc == NetworkReconnected ==> s == YieldInProgress
    ensures s != YieldInProgress ==>
              && RoundLeaves(NetworkReconnectTimedOut, s, true)
              && (s == PendingReconnect || s == ConnectedIdle)
  {
  }

  /** The state change that ends a yield turns the state of its last round into the state it leaves. */
  lemma EndOfYield(rc: Rc, s: ClientState, tooLong: bool)
    requires RoundLeaves(rc, s, tooLong)
    ensures var goesIdle := rc != NetworkDisconnected && rc != NetworkAttemptingReconnect && s == YieldInProgress;
            && YieldLeaves(rc, if goesIdle then ConnectedIdle else s, tooLong)
            && (rc == MqttSuccess && !goesIdle ==> YieldLeaves(UnexpectedClientState, s, tooLong))
            && AtRestState(if goesIdle then ConnectedIdle else s)
    ensures rc != UnexpectedClientState
    ensures s == YieldInProgress ==> rc != NetworkDisconnected && rc != NetworkAttemptingReconnect
  {
  }
}
