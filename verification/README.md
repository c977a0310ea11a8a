# A verified model of the MQTT client

The repository contains a single-threaded MQTT 3.1.1 client in C (`src/lib_mqtt`). This project models
it in Dafny and proves what it is for: that its state machine never loses track of the connection, that
packets survive serialising, framing and parsing, that acknowledgements, pings, back-off and packet ids
keep their order and bounds over every run, and that topic matching and the handler table mean what they
should. Where the code misses such a property there is a concrete input that shows it and the exact
condition under which the property holds.

`dafny verify dfyconfig.toml` checks everything.

## How the model is built

| file | contents |
|---|---|
| `Prelude.dfy` | octets, optional values, return codes, in-place buffer updates |
| `RemainingLength.dfy` | the variable-length field: encoder, both decoders, packet-size estimate |
| `Wire.dfy` | header byte, 16-bit integers, strings, whole frames, and the writers that fill a buffer from left to right |
| `PublishCodec.dfy`, `AckCodec.dfy`, `SubscribeCodec.dfy`, `ConnectCodec.dfy` | each packet as a frame, a reader written from the standard, and the source's serialisers and deserialisers over byte arrays |
| `Framer.dfy` | cutting a byte stream into packets |
| `Transfer.dfy` | from one client's serialiser to another client's deserialiser |
| `TopicMatcher.dfy` | the greedy matcher, the level-by-level one, and the standard's |
| `SubscriptionTable.dfy`, `PacketIds.dfy`, `Backoff.dfy`, `KeepAlive.dfy` | specifications of the four mechanisms, with their theorems over whole runs |
| `EventLog.dfy` | what others can see of a client, and what can be read off such a log |
| `ClientStates.dfy` | the states, and what each return code says about them |
| `Client.dfy` | the client as a class with the source's fields; every call as a method |
| `Session.dfy` | initialisation followed by any sequence of public calls |

In `Client.dfy` the network and the clock are adversaries: a read, a write, a connect or a look at the link
may end in any way the platform layer allows, any bytes may arrive, and time passes as it likes. A message
handler may call back into every call except initialisation and disconnect, to any depth, with any arguments
(`nesting` is a bound chosen by the caller, and every contract holds for each value of it). Ghost fields
record a log of what the client does; the invariants tie the fields to that log. Every read and every round
of a yield takes some time, which is what makes the waits end. Time is in microseconds, time-outs in
milliseconds and the keep-alive interval in seconds, as in the source.

Two other networks serve results that need more. A reliable one delivers a given list of packets as one byte
stream over all reads and connections, so that what the client has received can be compared with what was
sent. A cooperative one takes every connection and write at once, and each of its reads takes a microsecond
and finds the reply to the packet sent last: an accepting CONNACK, a SUBACK as long as the broker grants
subscriptions, or a PINGRESP. On it connecting is proved to succeed, and outcomes are determined, which gives
concrete runs.

Facts that run through the contracts: `Bracketed` is the promise of every wait and every handler run that
state, socket, back-off and, unless a PINGRESP arrives, ping fields are as before; `Stable` is the invariant
between top-level calls; `Untouched` means that a refused call changes nothing, buffers included; and
`Undisturbed` that no handler calls back when no nesting is allowed, when the table has no handler, or when the
network is cooperative, which delivers no messages.

## Results where code and documentation or standard differ

- The limit of four bytes on the length field has no effect in the stream decoder: `RemainingLength.StreamDecoderAcceptsFiveBytes`. It agrees with the standard exactly when one of the first four bytes ends the field or none does.
- The packet-size estimate is one byte too large at three values and exact elsewhere: `RemainingLength.EstimateIsExactUnlessAtBoundary`.
- The framer compares only the remaining length with the buffer size; `Framer.SizeTestWindow` gives the remaining lengths that pass without fitting (2246 and 2247 with the configured buffer), and `Framer.WindowOverrunsBuffer` that their frames need more than the buffer.
- `a/#` does not match `a`; `TopicMatcher.ClientMatchVersusStandard` says exactly which standard matches are missed.
- A subscribe picks its slot before it waits for the SUBACK, so when a message arrives meanwhile, and its handler subscribes too, that subscription is lost: `SubscriptionTable.NestedSubscribeIsLost`. `Client.MqttClient.Subscribe` says exactly when nothing is lost, and that nothing can be on a table without handlers.
- A resubscription stops at the first empty slot: `SubscriptionTable.ResubscribeCoversAllIffPrefix` and `SubscriptionTable.UnsubscribeCanBreakPrefix`.
- The sample application's disconnect handler reconnects by hand when reconnecting is not automatic, and the state it leaves is overwritten: the client then takes an open connection for a closed one only if reconnecting is not automatic and its parameters can be sent, and on a cooperative network exactly then: `Client.MqttClient.HandleDisconnectReconnecting`, with `Session.ReconnectingHandlerWitness` for a concrete client.
- The serialisers write SUBSCRIBE and UNSUBSCRIBE packets with a dup bit or an empty list when asked to, which the standard forbids: `SubscribeCodec.ForbiddenRequests`. No caller asks for either (`src/lib_mqtt/src/mqtt_client_subscribe.c:206-207` and 339-343, `src/lib_mqtt/src/mqtt_client_unsubscribe.c:146-148`), and what the client does send is understood: `EventLog.RequestsAreUnderstood`.
- CONNECT packets with a password but no user name, or with neither client id nor clean session, are sent although the standard forbids them: `ConnectCodec.ForbiddenConnects`.
- Sending refuses a packet that exactly fills the transmit buffer, after the serialiser has accepted it (`src/lib_mqtt/src/mqtt_client_common_internal.c:262`): `Client.MqttClient.SendPacket`.
- A yield whose last round connects but fails to resubscribe, and exhausts the back-off, returns the timed-out code on an open connection (`src/lib_mqtt/src/mqtt_client_yield.c:74-90`); when there is time left and later reads succeed it returns the unexpected-state code on an open connection, because the final compare-and-set finds the client idle already (280-288). `Session.GivingUpOnOpenConnectionWitness` is such a client, for time-outs of both kinds. `Client.MqttClient.Yield` gives the conditions before the call: neither can happen when the first slot of the table is empty and no handler calls back, and both do, depending on the time-out, when on a cooperative network that grants no subscriptions a last round is due, the parameters can be sent, and the first slot is occupied and its request can be sent.
- A SUBACK may carry one return code more than the documented maximum: `AckCodec.DeserializeSuback`.
- The session-present flag of a CONNACK is read from the top bit; section 3.2.2.2 of MQTT 3.1.1 puts it in the lowest: `AckCodec.DeserializeConnack`.
- When the link is down the platform reports the code for a manual disconnect, not the one for a missing link (`src/lib_mqtt/platform/network_platform.c:178-190`); the model does the same in `Client.MqttClient.PhysicalLayer`.

## Model

| member | source | states |
|---|---|---|
| `Session.Run` | src/lib_mqtt/src/mqtt_client_yield.c:31-290 | after initialisation and any sequence of public calls, with any network results and handlers calling back to any depth, the client is in one of five states at rest and connected exactly when its socket is open; at most one ping is unanswered and the keep-alive checks of an open connection follow their specification; ids are in order and the back-off history is consistent; on a reliable network the packets received are the first packets of the stream, in order, and the ids owed are theirs; unless a handler has called back, which none can when no nesting is allowed, every packet received has run exactly its handlers in slot order and then been acknowledged, acknowledgements are those owed in arrival order, the handler table is the result of exactly the subscribes and unsubscribes that succeeded, it refines the multiset of live subscriptions, and without unsubscribes its occupied slots form a prefix |
| `Session.Perform` | src/lib_mqtt/src/mqtt_client_common_internal.c:456-478 | any one public call keeps the invariant; unless a handler calls back, its result code tells exactly what has become of the table |
| `Session.RunGivenUp` | src/lib_mqtt/src/mqtt_client_yield.c:178-181 | once reconnecting has been given up, over any sequence of calls without a connect or a reconnect attempt: it stays given up, nothing is sent or received, the table and the packet ids stay, and every yield reports the time-out |
| `Session.PerformGivenUp` | src/lib_mqtt/src/mqtt_client_yield.c:245-290 | the same for one call; besides, only the two setters succeed |
| `Session.RunTableIsTableAfter` | src/lib_mqtt/src/mqtt_client_subscribe.c:157-169 | the table after any completed operations stands for the multiset they make, and without an unsubscribe a resubscription covers all of it |
| `Session.ReconnectingHandlerWitness` | src/mqtt/mqtt_main.c:41-55 | a client on which a noticed disconnect, with a handler that reconnects by hand, leaves an open connection that the client takes for closed; the handling of the disconnect is called directly, in the place where a yield calls it |
| `Session.GivingUpOnOpenConnectionWitness` | src/lib_mqtt/src/mqtt_client_yield.c:58-93 | a client, brought there by public calls, whose yield returns the timed-out code for every time-out up to the command time-out, and the unexpected-state code for every one longer than two of them, while it is connected |
| `Client.MqttClient.constructor` | src/lib_mqtt/src/mqtt_client.c:140-225 | initialisation: empty table, id counter 1, no ping outstanding, socket closed, state initialised |
| `Client.MqttClient.HistoryAtRest` | src/lib_mqtt/src/mqtt_client_common_internal.c:483-596 | from the invariant: one unanswered ping at most, the k-th packet id is k mod 65535 plus 1, and unless a handler has called back every packet received has been delivered to exactly its handlers and acknowledged in arrival order, all acknowledgements sent unless one was lost; on a reliable network the packets received are those read from the stream, the rest of it is still to come, and the ids owed are those of its packets |
| `Client.MqttClient.SetClientState` | src/lib_mqtt/src/mqtt_client.c:79-112 | compare-and-set: changes the state exactly when the expected one is current |
| `Client.MqttClient.GetNextPacketId` | src/lib_mqtt/src/mqtt_client.c:227-230 | the next id follows the previous one and is appended to the history of ids |
| `Client.MqttClient.SendPacket` | src/lib_mqtt/src/mqtt_client_common_internal.c:251-300 | success exactly when the packet was written, once; too long packets are refused without writing; on a cooperative network nothing else fails |
| `Client.MqttClient.ReadPacket` | src/lib_mqtt/src/mqtt_client_common_internal.c:332-402 | the framer on what arrives: success leaves a canonical packet that fits in the buffer, anything else leaves the packet type alone; on a reliable network it is the next packet of the one stream |
| `Client.NextOnStream` | src/lib_mqtt/src/mqtt_client_common_internal.c:332-402 | on a stream of packets that fit, of which k have been read, the framer finds the next packet whole and accepts it, and leaves the stream after k + 1 |
| `Client.MqttClient.DeliverMessage` | src/lib_mqtt/src/mqtt_client_common_internal.c:443-481 | the state is as before for handlers nested to any depth; without call-backs the log grows by exactly the calls of the receiving slots |
| `Client.MqttClient.DeliverToSlot` | src/lib_mqtt/src/mqtt_client_common_internal.c:464-476 | a slot's handler is called exactly when its filter equals or matches the topic |
| `Client.MqttClient.RefusedCall` | src/lib_mqtt/src/mqtt_client_common_internal.c:456-460 | inside a handler a yield, a resubscription, a connect and a reconnect attempt are refused with their own codes and change nothing at all |
| `Client.MqttClient.HandlePublish` | src/lib_mqtt/src/mqtt_client_common_internal.c:483-530 | the matching handlers run, then for QoS above 0, and only then, the PUBACK goes out or is recorded as lost |
| `Client.MqttClient.Acknowledge` | src/lib_mqtt/src/mqtt_client_common_internal.c:516-529 | sends the PUBACK that is owed; a failure is recorded as a lost acknowledgement |
| `Client.MqttClient.HandlePacket` | src/lib_mqtt/src/mqtt_client_common_internal.c:567-595 | awaited packets stay in the buffer untouched, a PUBLISH has its effect whether or not it can be acknowledged, a PINGRESP clears the flag, rearms the timer and begins a new silence |
| `Client.MqttClient.HandleOther` | src/lib_mqtt/src/mqtt_client_common_internal.c:578-592 | only a PINGRESP changes the ping fields |
| `Client.MqttClient.CycleRead` | src/lib_mqtt/src/mqtt_client_common_internal.c:532-596 | one read cycle handles at most one packet, never reports a disconnect, and returns with state and socket as before |
| `Client.MqttClient.ReadOrExpire` | src/lib_mqtt/src/mqtt_client_common_internal.c:609-616 | one turn of a wait: the time is up, or one read cycle is made, which leaves an awaited packet in the buffer |
| `Client.MqttClient.WaitForRead` | src/lib_mqtt/src/mqtt_client_common_internal.c:599-624 | success only if the last packet read has the awaited type and is still in the buffer; otherwise the time is up; it terminates because reading takes time |
| `Client.MqttClient.InternalPublish` | src/lib_mqtt/src/mqtt_client_publish.c:181-227 | a successful QoS 1 publish sent the message with a fresh id and read a well-formed PUBACK after it; QoS 0 sends the message and nothing else |
| `Client.MqttClient.Publish` | src/lib_mqtt/src/mqtt_client_publish.c:246-279 | the same with the state restored on every path; refused without a change when not connected or for an empty topic |
| `Client.MqttClient.GetFreeMessageHandlerIndex` | src/lib_mqtt/src/mqtt_client_subscribe.c:157-169 | the lowest empty slot, or the number of slots |
| `Client.MqttClient.InternalSubscribe` | src/lib_mqtt/src/mqtt_client_subscribe.c:187-254 | success: SUBSCRIBE sent, a well-formed SUBACK read after it, and one store into the slot that was lowest when the call began; without call-backs a failure leaves the table alone; a full table is refused |
| `Client.MqttClient.Subscribe` | src/lib_mqtt/src/mqtt_client_subscribe.c:272-306 | the same with the state restored on every path; the store adds the subscription and loses none exactly when the slot chosen before the wait is still empty, and no handler can fill it on a table without handlers; a cooperative broker that grants subscriptions makes it succeed |
| `Client.MqttClient.InternalResubscribe` | src/lib_mqtt/src/mqtt_client_subscribe.c:321-369 | sends the requests of the slots below the lowest empty one in slot order, stopping at the first failure; all of them on success; when a cooperative broker grants nothing it succeeds exactly when there are none |
| `Client.MqttClient.Resubscribe` | src/lib_mqtt/src/mqtt_client_subscribe.c:384-416 | the same; refused and without any change inside a handler |
| `Client.MqttClient.HandlerExists` | src/lib_mqtt/src/mqtt_client_unsubscribe.c:131-137 | whether some slot holds the filter |
| `Client.MqttClient.RemoveFromHandlers` | src/lib_mqtt/src/mqtt_client_unsubscribe.c:169-177 | every slot with the filter is emptied and no other changes |
| `Client.MqttClient.InternalUnsubscribe` | src/lib_mqtt/src/mqtt_client_unsubscribe.c:117-180 | success: UNSUBSCRIBE sent, a well-formed UNSUBACK read after it, all slots with the filter emptied; unknown filters fail without sending; without call-backs a failure leaves the table alone |
| `Client.MqttClient.Unsubscribe` | src/lib_mqtt/src/mqtt_client_unsubscribe.c:197-228 | the same with the state restored on every path |
| `Client.MqttClient.StartConnection` | src/lib_mqtt/src/mqtt_client_connect.c:370-399 | stores new parameters, opens the socket, takes over the keep-alive interval and sends the CONNECT; parameters that cannot be serialised and sent fail, others succeed on a cooperative network |
| `Client.MqttClient.Handshake` | src/lib_mqtt/src/mqtt_client_connect.c:401-420 | success only on an accepting CONNACK, after which no ping is outstanding and the ping timer is armed |
| `Client.MqttClient.InternalConnect` | src/lib_mqtt/src/mqtt_client_connect.c:361-421 | success: opened, CONNECT sent with the given or the previous parameters, an accepting CONNACK read last, no ping outstanding, the ping timer one interval away and a new silence begun; on a cooperative network every serialisable request succeeds |
| `Client.MqttClient.Connect` | src/lib_mqtt/src/mqtt_client_connect.c:435-466 | success is connected idle with an open socket, failure is disconnected with a closed one; refused and without any change while connected or inside a handler |
| `Client.MqttClient.InternalDisconnect` | src/lib_mqtt/src/mqtt_client_connect.c:479-514 | success: DISCONNECT sent, then the socket closed; failure leaves it open |
| `Client.MqttClient.Disconnect` | src/lib_mqtt/src/mqtt_client_connect.c:527-558 | disconnected manually on success, the state it had on failure |
| `Client.MqttClient.AttemptReconnect` | src/lib_mqtt/src/mqtt_client_connect.c:573-601 | pending with a closed socket, or connected and resubscribed completely, or connected with a failed resubscription; it connects only with parameters that can be sent, and on a cooperative network whenever they can; with nothing to resubscribe it never ends connected with a failure |
| `Client.MqttClient.ForceDisconnect` | src/lib_mqtt/src/mqtt_client_yield.c:31-35 | closes the socket without a packet |
| `Client.MqttClient.EndConnection` | src/lib_mqtt/src/mqtt_client_yield.c:42-46 | the socket ends up closed whether or not the DISCONNECT could be sent |
| `Client.MqttClient.HandleDisconnect` | src/lib_mqtt/src/mqtt_client_yield.c:37-55 | a noticed disconnect leaves the error state and a closed socket |
| `Client.MqttClient.HandleDisconnectReconnecting` | src/mqtt/mqtt_main.c:28-55 | with a handler that reconnects by hand, state and socket agree afterwards when reconnecting is automatic or the parameters cannot be sent, on every network, and on a cooperative one exactly then |
| `Client.MqttClient.KeepAlive` | src/lib_mqtt/src/mqtt_client_yield.c:95-143 | one check is a step of the keep-alive specification: quiet, pinged or disconnected, with the log to match; a check at or after 2K + G + D of silence, with checks at most G apart and sends within D, disconnects |
| `Client.MqttClient.SendPing` | src/lib_mqtt/src/mqtt_client_yield.c:118-140 | PINGREQ sent, flag set and timer armed, or nothing |
| `Client.MqttClient.KeptConnectionIsNotSilentForLong` | src/lib_mqtt/src/mqtt_client_yield.c:107-115 | a connection still up was, at its latest check, not silent for 2K + G + D, for every reachable state |
| `Client.MqttClient.SuccessMeansNotSilentForLong` | src/lib_mqtt/src/mqtt_client_yield.c:175-222 | a yield that succeeds on a connection silent throughout began before 2K + G + D of silence |
| `Client.MqttClient.PhysicalLayer` | src/lib_mqtt/platform/network_platform.c:178-190 | the two answers of the link test |
| `Client.MqttClient.HandleReconnect` | src/lib_mqtt/src/mqtt_client_yield.c:58-93 | before its time nothing happens; a failed round doubles the interval and sets the timer or gives up; a reconnection returns to the yield; when the round is the last one and will connect but not resubscribe, it gives up on an open connection |
| `Client.MqttClient.FailRound` | src/lib_mqtt/src/mqtt_client_yield.c:86-92 | the end of a failed round: twice the interval, and the timer that far away unless the maximum is exceeded |
| `Client.MqttClient.IntervalIsBounded` | src/lib_mqtt/src/mqtt_client_yield.c:86-88 | the interval is MIN times 2 to the number of failed rounds and at most twice MAX, so doubling does not overflow |
| `Client.MqttClient.GivingUpTakesAllRounds` | src/lib_mqtt/src/mqtt_client_yield.c:86-93 | giving up takes exactly floor(log2(MAX/MIN)) + 1 failed rounds and not less than MIN * (2^n - 1) ms since the disconnect |
| `Client.MqttClient.FailedRoundStaysConsistent` | src/lib_mqtt/src/mqtt_client_yield.c:86-93 | a failed round keeps the back-off history consistent |
| `Client.MqttClient.StartBackoff` | src/lib_mqtt/src/mqtt_client_yield.c:200-218 | a noticed disconnect is counted and, with automatic reconnecting, enters the pending state with the minimum interval; that state change cannot fail |
| `Client.MqttClient.CheckLink` | src/lib_mqtt/src/mqtt_client_yield.c:189-198 | a terminal error always ends the connection, other errors are passed on unchanged, a good read is followed by a keep-alive check when an interval is set |
| `Client.MqttClient.YieldRound` | src/lib_mqtt/src/mqtt_client_yield.c:175-222 | how the result of one round describes the state it leaves, and when the loop goes on |
| `Client.MqttClient.InternalYield` | src/lib_mqtt/src/mqtt_client_yield.c:164-224 | the same for the loop, which ends with success only when the time is up, and with the client idle only if there was something to resubscribe |
| `Client.MqttClient.Yield` | src/lib_mqtt/src/mqtt_client_yield.c:245-290 | every result code determines the state left behind, except that the timed-out code leaves it open whether the client is connected; with the first slot empty and no call-back that code means not connected and the unexpected-state code does not occur, and under the opposite conditions of a last round that connects and cannot resubscribe both occur on an open connection, depending on the time-out; a success has lasted its whole time and ends with a keep-alive check; terminal network errors never surface; refused and without any change inside a handler or when there is nothing to yield to; after giving up nothing but time changes |
| `ClientStates.EndOfYield` | src/lib_mqtt/src/mqtt_client_yield.c:280-288 | how the state change that ends a yield turns the state of its last round into the one the result describes, with the unexpected-state code only on an idle connection |
| `PacketIds.IdsAreIdAfter` | src/lib_mqtt/src/mqtt_client.c:182-230 | the k-th id handed out is k mod 65535 plus 1, so never 0 |
| `PacketIds.IdsRepeatWithFullPeriodOnly` | src/lib_mqtt/src/mqtt_client.c:227-230 | two ids are equal exactly when a multiple of 65535 lies between them |
| `Backoff.GivesUpAfterRounds` | src/lib_mqtt/src/mqtt_client_yield.c:86-90 | the interval exceeds MAX exactly from round floor(log2(MAX/MIN)) + 1 on, and is then at most 2 MAX |
| `Backoff.ConfiguredRounds` | src/lib_mqtt/user_config/mqtt_config.h:15-16 | five rounds with the configured limits |
| `Backoff.WaitedIsGeometric` | src/lib_mqtt/src/mqtt_client_yield.c:86-91 | the waiting times before round k sum up to MIN * (2^k - 1) |
| `Backoff.FailedRound` | src/lib_mqtt/src/mqtt_client_yield.c:86-93 | a failed round not before the timer keeps a history consistent |
| `Backoff.GivenUp` | src/lib_mqtt/src/mqtt_client_yield.c:178-181 | a consistent history above MAX has all its rounds and all its waiting time behind it |
| `KeepAlive.SilenceIsNoticed` | src/lib_mqtt/src/mqtt_client_yield.c:95-143 | checks at most G apart on a silent connection lead to a disconnect by t0 + 2K + 2G + D |
| `KeepAlive.WatchStaysBounded` | src/lib_mqtt/src/mqtt_client_yield.c:107-140 | how far away the ping timer of a silent connection can be |
| `KeepAlive.OnePingWhileSilent` | src/lib_mqtt/src/mqtt_client_yield.c:111-138 | a silent connection is sent one ping only |
| `KeepAlive.KeptMeansRecent` | src/lib_mqtt/src/mqtt_client_yield.c:95-143 | while a silent connection is kept its latest check is recent |
| `KeepAlive.CheckIsInTime` | src/lib_mqtt/src/mqtt_client_yield.c:107-115 | a check late in a silence leads to a disconnect, for any regularity of the checks |
| `EventLog.AcksInArrivalOrder` | src/lib_mqtt/src/mqtt_client_common_internal.c:511-527 | in an orderly log the ids acknowledged, sent or lost, equal the ids of the QoS 1 messages in arrival order, and the PUBACKs sent are all of them exactly when none was lost |
| `EventLog.OrderlyMeansDelivered` | src/lib_mqtt/src/mqtt_client_common_internal.c:462-527 | in an orderly log every packet received is followed at once by exactly the calls its topic makes on the table of that moment, in slot order, and then by its acknowledgement, sent or lost, if one was owed |
| `EventLog.OwedIdsAreOfInbounds` | src/lib_mqtt/src/mqtt_client_common_internal.c:511-527 | the ids owed are those of the QoS 1 messages among the packets received, in order |
| `EventLog.RequestsAreUnderstood` | src/lib_mqtt/src/mqtt_client_subscribe.c:206-207 | a SUBSCRIBE or UNSUBSCRIBE as the client's calls build it is read back by a broker that keeps to the standard |
| `EventLog.AckFollowsItsHandlers` | src/lib_mqtt/src/mqtt_client_common_internal.c:506-527 | before each PUBACK there is its message with nothing but handler calls between them |
| `EventLog.NoHandlerAfterAck` | src/lib_mqtt/src/mqtt_client_common_internal.c:506-527 | after a PUBACK no handler runs before the next inbound packet |
| `EventLog.CallsAreTheReceivingSlots` | src/lib_mqtt/src/mqtt_client_common_internal.c:462-477 | a message calls exactly the handlers of the slots that receive it, each once, in slot order |
| `SubscriptionTable.TableRefinesMultiset` | src/lib_mqtt/src/mqtt_client_subscribe.c:212-253 | over every run of completed calls the table behaves as a bounded multiset of subscriptions |
| `SubscriptionTable.StoreIsAdditionIffSlotEmpty` | src/lib_mqtt/src/mqtt_client_subscribe.c:212-251 | a store adds one subscription and loses none exactly when the slot is still empty |
| `SubscriptionTable.NestedSubscribeIsLost` | src/lib_mqtt/src/mqtt_client_subscribe.c:212-251 | a table with one handler on which a subscribe made by that handler, while another waits for its SUBACK, is lost by the store of the other |
| `SubscriptionTable.RemoveFilterMeaning` | src/lib_mqtt/src/mqtt_client_unsubscribe.c:169-177 | removal takes all subscriptions with the filter and no others |
| `SubscriptionTable.ResubscribeCoversAllIffPrefix` | src/lib_mqtt/src/mqtt_client_subscribe.c:333-367 | a resubscription covers every live subscription exactly when the occupied slots form a prefix |
| `SubscriptionTable.SubscribesKeepPrefix` | src/lib_mqtt/src/mqtt_client_subscribe.c:157-169 | runs without unsubscribe keep the occupied slots a prefix |
| `SubscriptionTable.UnsubscribeCanBreakPrefix` | src/lib_mqtt/src/mqtt_client_unsubscribe.c:169-177 | a run after which a resubscription forgets a live subscription |
| `TopicMatcher.IsTopicMatched` | src/lib_mqtt/src/mqtt_client_common_internal.c:407-441 | the loop returns the level-by-level answer for every well-formed filter |
| `TopicMatcher.SkipLevel` | src/lib_mqtt/src/mqtt_client_common_internal.c:426-430 | the inner loop for `+` stops on the last character of the level |
| `TopicMatcher.GreedyIsLevelByLevel` | src/lib_mqtt/src/mqtt_client_common_internal.c:404-441 | for every well-formed filter and every name the greedy matching is the level-by-level one |
| `TopicMatcher.ClientMatchVersusStandard` | src/lib_mqtt/src/mqtt_client_common_internal.c:404-441 | a client match is a standard match, and one is missed exactly when a wildcard faces an empty or absent level |
| `TopicMatcher.CompleteOnNonEmptyLevels` | src/lib_mqtt/src/mqtt_client_common_internal.c:404-441 | no match is missed when all levels have text and `#` covers at least one |
| `TopicMatcher.ParentLevelIsMissed` | src/lib_mqtt/src/mqtt_client_common_internal.c:431-434 | `a/#` and `a` match in the standard but not here |
| `Framer.FramingStaysInSync` | src/lib_mqtt/src/mqtt_client_common_internal.c:332-402 | on any concatenation of packets, minimal length fields or not, the k-th read takes exactly the k-th packet, dropped ones included |
| `Framer.FrameAtWirePacket` | src/lib_mqtt/src/mqtt_client_common_internal.c:362-392 | whatever encoding the length field uses, the framer stops right after the packet |
| `Framer.SizeTestWindow` | src/lib_mqtt/src/mqtt_client_common_internal.c:369-387 | the remaining lengths for which the size test is wrong, exactly and for every buffer size |
| `Framer.WindowOverrunsBuffer` | src/lib_mqtt/src/mqtt_client_common_internal.c:386-392 | exactly those packets are taken for fitting although header, length field and body need more than the buffer |
| `Framer.DecodePacketRemainingLen` | src/lib_mqtt/src/mqtt_client_common_internal.c:302-330 | value and bytes used are those of the unlimited stream decoder |
| `Framer.DrainPacket` | src/lib_mqtt/src/mqtt_client_common_internal.c:369-384 | a refused packet is drained to its last byte in chunks that fit the buffer |
| `Framer.StorePacket` | src/lib_mqtt/src/mqtt_client_common_internal.c:386-396 | header, shortest length field and body lie in the buffer |
| `Framer.ReadPacket` | src/lib_mqtt/src/mqtt_client_common_internal.c:332-402 | success leaves the packet in canonical form and the stream right after it, other results are those of reads and refusals; on a reliable socket every packet is received or dropped whole |
| `Framer.ReadPackets` | src/lib_mqtt/src/mqtt_client_common_internal.c:332-402 | repeated calls give the outcome of each packet in turn and leave what follows untouched |
| `Framer.Socket.Read` | src/lib_mqtt/platform/network_platform.c:389-417 | a read delivers exactly the requested bytes or fails |
| `Transfer.EndToEnd` | src/lib_mqtt/src/mqtt_client_publish.c:71-117 | serialised messages, concatenated and framed, parse to the same list |
| `Transfer.TransferAll` | src/lib_mqtt/src/mqtt_client_publish.c:296-356 | the same for the array code: serialiser, framer and deserialiser move any list of messages unchanged |
| `Transfer.SendAll` | src/lib_mqtt/src/mqtt_client_publish.c:71-117 | the sending side alone |
| `Transfer.ReceiveAll` | src/lib_mqtt/src/mqtt_client_publish.c:296-356 | the receiving side alone |
| `RemainingLength.RoundTrip` | src/lib_mqtt/src/mqtt_client_common_internal.c:40-88 | decoding an encoded length gives the length and consumes exactly its bytes, whatever follows |
| `RemainingLength.EncodeIsShortest` | src/lib_mqtt/src/mqtt_client_common_internal.c:40-88 | no accepted encoding is shorter, and one of the same size is the same |
| `RemainingLength.EstimateIsExactUnlessAtBoundary` | src/lib_mqtt/src/mqtt_client_common_internal.c:90-103 | the estimate is the packet size, and one more at 127, 16383 and 2097151 |
| `RemainingLength.WriteLength` | src/lib_mqtt/src/mqtt_client_common_internal.c:40-56 | the loop writes the encoding and nothing else |
| `RemainingLength.DecodeFromBuffer` | src/lib_mqtt/src/mqtt_client_common_internal.c:64-88 | the loop decodes as the standard describes, with its limit of four bytes |
| `RemainingLength.StreamDecoderObeysLimitExactlyUpToFourBytes` | src/lib_mqtt/src/mqtt_client_common_internal.c:310-327 | the stream decoder agrees with the standard exactly when one of the first four bytes ends the field, or no byte of the stream does |
| `RemainingLength.StreamDecodeEndsAtFieldEnd` | src/lib_mqtt/src/mqtt_client_common_internal.c:314-327 | the stream decoder goes on to the first byte without its top bit, wherever that is |
| `RemainingLength.StreamDecoderAcceptsFiveBytes` | src/lib_mqtt/src/mqtt_client_common_internal.c:315-320 | a five-byte field that is accepted |
| `Wire.HeaderRoundTrip` | src/lib_mqtt/src/mqtt_client_common_internal.c:171-249 | the header byte and its four fields determine each other |
| `Wire.InitHeader` | src/lib_mqtt/src/mqtt_client_common_internal.c:171-249 | the header has the given fields; unknown types fail |
| `Wire.PutUint16` | src/lib_mqtt/src/mqtt_client_common_internal.c:128-133 | two bytes behind those written so far |
| `Wire.PutText` | src/lib_mqtt/src/mqtt_client_common_internal.c:156-163 | length and text behind those written so far |
| `Wire.ReadUint16` | src/lib_mqtt/src/mqtt_client_common_internal.c:112-121 | the integer at a place in the buffer |
| `Wire.FrameRoundTrip` | src/lib_mqtt/src/mqtt_client_common_internal.c:64-88 | a canonical frame is read back whole, whatever follows |
| `Wire.ReadRemainingLength` | src/lib_mqtt/src/mqtt_client_publish.c:333-340 | where the body of a packet in the buffer begins and ends |
| `PublishCodec.PublishRoundTrip` | src/lib_mqtt/src/mqtt_client_publish.c:71-117 | messages and PUBLISH frames are in one-to-one correspondence |
| `PublishCodec.SerializePublish` | src/lib_mqtt/src/mqtt_client_publish.c:71-117 | writes exactly the packet, within the limit, and reports its size; or fails and writes nothing |
| `PublishCodec.DeserializePublish` | src/lib_mqtt/src/mqtt_client_publish.c:296-356 | succeeds exactly on frames that hold a message, and gives its fields |
| `PublishCodec.ReadStringWithLen` | src/lib_mqtt/src/mqtt_client_publish.c:36-53 | the string at a place, exactly when it ends in time |
| `AckCodec.AckRoundTrip` | src/lib_mqtt/src/mqtt_client_publish.c:130-162 | acknowledgements of every type keep type, dup and id |
| `AckCodec.SerializeAck` | src/lib_mqtt/src/mqtt_client_publish.c:130-162 | writes exactly the four bytes, or fails and writes nothing |
| `AckCodec.DeserializeAck` | src/lib_mqtt/src/mqtt_client_publish.c:368-409 | succeeds exactly when there is room for an id, and gives type, dup and id |
| `AckCodec.DeserializeUnsuback` | src/lib_mqtt/src/mqtt_client_unsubscribe.c:87-100 | the same for UNSUBACK alone |
| `AckCodec.SerializeZero` | src/lib_mqtt/src/mqtt_client_common_internal.c:634-665 | writes exactly the two bytes, or fails and writes nothing |
| `AckCodec.DeserializeSuback` | src/lib_mqtt/src/mqtt_client_subscribe.c:100-154 | the id and all return codes in order, exactly when there are at most one more than the stated maximum |
| `AckCodec.DeserializeConnack` | src/lib_mqtt/src/mqtt_client_connect.c:233-306 | the return code, exactly on a two-byte CONNACK body |
| `SubscribeCodec.SubscribeRoundTrip` | src/lib_mqtt/src/mqtt_client_subscribe.c:42-87 | a reader that keeps to sections 3.8 and 2.3.1 recovers id, filters and requested QoS in order exactly when no dup bit is set, there is a filter, and the id is not zero; it refuses the packet otherwise |
| `SubscribeCodec.UnsubscribeRoundTrip` | src/lib_mqtt/src/mqtt_client_unsubscribe.c:40-77 | the same for sections 3.10 and 2.3.1 |
| `SubscribeCodec.SubscribeLayoutRoundTrip` | src/lib_mqtt/src/mqtt_client_subscribe.c:42-87 | id, filters and requested QoS are in the packet in order, for lists of any length |
| `SubscribeCodec.UnsubscribeLayoutRoundTrip` | src/lib_mqtt/src/mqtt_client_unsubscribe.c:40-77 | id and filters are in the packet in order, for lists of any length |
| `SubscribeCodec.ForbiddenRequests` | src/lib_mqtt/src/mqtt_client_subscribe.c:57-67 | packets the serialisers write when asked to and the standard forbids: a dup bit, an empty list; no caller asks |
| `SubscribeCodec.SerializeSubscribe` | src/lib_mqtt/src/mqtt_client_subscribe.c:42-87 | writes exactly the packet, or fails and writes nothing |
| `SubscribeCodec.SubscribeRemaining` | src/lib_mqtt/src/mqtt_client_subscribe.c:57-61 | the length computed first is that of the bytes the second loop writes |
| `SubscribeCodec.SerializeUnsubscribe` | src/lib_mqtt/src/mqtt_client_unsubscribe.c:40-77 | writes exactly the packet, or fails and writes nothing |
| `SubscribeCodec.UnsubscribeRemaining` | src/lib_mqtt/src/mqtt_client_unsubscribe.c:46-54 | the length computed first is that of the bytes the second loop writes |
| `ConnectCodec.ConnectRoundTrip` | src/lib_mqtt/src/mqtt_client_connect.c:134-223 | a reader that keeps to section 3.1 recovers every option exactly when a password comes with a user name and an absent client id with a clean session; it refuses the packet otherwise |
| `ConnectCodec.ConnectLayoutRoundTrip` | src/lib_mqtt/src/mqtt_client_connect.c:134-223 | every option is in the packet, for all combinations of will, user name, password and client id |
| `ConnectCodec.ForbiddenConnects` | src/lib_mqtt/src/mqtt_client_connect.c:145-149 | packets the serialiser writes and section 3.1 forbids: a password without a user name, no client id without a clean session |
| `ConnectCodec.ConnectLengthIsBodyLength` | src/lib_mqtt/src/mqtt_client_connect.c:97-124 | the computed length is that of the bytes after the fixed header |
| `ConnectCodec.SerializeConnect` | src/lib_mqtt/src/mqtt_client_connect.c:134-223 | writes exactly the packet, or reports which option is wrong and writes nothing |

## Left out

- Client.MqttClient.ReadPacket: on a network that is not reliable every read finds an arbitrary stream, related to no other read; on a reliable one the packets of one stream go on over all connections, and all fit in the buffer. Inbound PUBLISH packets that promise a packet id without room for it, and packets in the window of `Framer.SizeTestWindow`, do not arrive.
- Session.GivingUpOnOpenConnectionWitness: the first reconnect interval is what the memory held before initialisation, which the source does not set.
- Framer.ReadPacket: requires a remaining length outside the window of `Framer.SizeTestWindow`; inside it the source writes past its buffer. The packet time-out inside a packet is part of the read error that a socket may report.
- Framer.DrainPacket: after a failed read in the middle of a packet the rest of the stream is not framed again, so recovery is not modelled.
- Client.MqttClient.SendPacket: a write that succeeds has sent everything, as the platform layer promises.
- Client.MqttClient.HandleDisconnect: the disconnect handler does not call the client, as the one in the sample application when reconnecting is automatic; the other case is `Client.MqttClient.HandleDisconnectReconnecting`, which no yield of the model calls, so that runs with such a handler are not part of `Session.Run`.
- Client.MqttClient.ResubscribeSlot: when a handler unsubscribes during a resubscription the source follows a null topic pointer; the model returns a failure.
- Client.MqttClient.InternalSubscribe: the free slot is looked up before the packet is serialised, not after; serialising does not touch the table.
- Client.MqttClient.Unsubscribe: the state change back after a compare-and-set that cannot fail is not repeated.
- Client.MqttClient.GetNextPacketId: public in the source, so an application could use up ids itself; in the model only the client's own calls do.
- Client.MqttClient.constructor: initialisation of the network layer always succeeds, and null arguments are not modelled; the same holds for the null checks of the other calls.
- Client.MqttClient.Publish: no match between the id sent and the id acknowledged is claimed, because the source does not compare them.
- Client.MqttClient.CountDisconnect: reading and resetting the disconnect counter, and replacing the disconnect handler, are not modelled.
- Threads, mutexes and `_ENABLE_THREAD_SUPPORT_`: disabled in the configuration.
- The platform layer: sockets, TLS and timers are an open flag, a byte stream and an integer clock; destroying a connection always succeeds.
- QoS 2 flows and topics that begin with `$`: the source does not support them.
- Text is a sequence of octets without a zero octet; that a filter's stored length is the length of its text is taken for granted where the source compares with `strcmp` and `strncmp`.
- `size_t` and `uint32_t` have 32 bits; lengths that would overflow them are excluded by the preconditions of the serialisers.
- The sample application, logging and certificates.
