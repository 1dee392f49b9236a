# Verification of the communication centre

Dafny models of four parts of this repository, with proofs of what each is for.

**The QoS 1/2 message flow of the MQTT client library.** `MessageFlow` states every event that
touches the message queues, quotas and connection state as a function on a `Session`; the class
`Client.Mosquitto` does the same in place, with the loops of the C code, and each of its methods is
proved equal to its function. Over those functions:

- `SendWindow`: a weak invariant that every run keeps whatever the broker and the network do; the
  exact window that a reconnect restores from it and that fair runs then keep; and, for
  acknowledgements, PUBREC and CONNACK, exactly when they keep it.
- `Identities`: the queue holds distinct messages in the order of the publish calls, always.
- `ExactlyOnce`: a message whose PUBREC was processed is never published again.
- `Ordering`: first transmissions follow the publish calls; `Overtaking`: the exact conditions under
  which a publish and a CONNACK keep that order, and two runs that do not.
- `Receive`: accepted QoS 2 messages are delivered, queued or dropped, each once; `ReceiveWindow`:
  the exact receive quota of MQTT 5.
- `Calls` and `Published`: no QoS 1 or 2 call is lost or altered, and each PUBLISH carries what its
  call gave it; `InFlight`: the states of queued messages, and that none waits while there is quota;
  `Conversation`: every answer, callback and retry, the connection and the results. They share the
  normal form of events in `Exchange`.

**The MQTT framing layer.** `FrameReader` is the incremental reader over a network that delivers
bytes in any pieces, `FrameStream` shows that the pieces do not matter; `FrameWriter` is the
outgoing list with partial writes; `Varint`, `PacketBuffer`, `ConnectPacket` and `ConnectReader`
are the encodings, the packet builder and the CONNECT packet with an independent reader for it.

**The intrusive containers.** `DoublyLinkedList` and `HashTable` are the list and hash macros on
heap objects with their links; `ListSort` is the merge sort both share; `StableSort` and `Buckets`
are the same algorithms on sequences, where their laws are proved.

**The ventilation controller.** `Ventilation` and `VentilationControl` are its shared state changed
by ticks, sensor messages, timeouts and posts. Over whole runs, `VentilationSafety` is about the fan
rule, stale sensors and what is published, `VentilationModes` about posts, modes and the schedule,
`VentilationFan` about the fan of AUTO_ECO and how the two automatic modes compare, and
`VentilationRules` states every rule in numbers, also with sensors missing.
`JsonEscape` and `TopicTokens` are the chunked JSON escaper and the topic tokeniser.

`dafny verify dfyconfig.toml` checks everything.

## Assumptions

- Which sends succeed (`Network`), what `net__read` and `net__write` do and what the application
  publishes from a callback are parameters; theorems hold for all of them unless they say otherwise.
- Each critical section is one atomic step.
- Memory allocation succeeds. Unsigned sums do not exceed 32 bits unless a theorem says what happens
  when they do; counters are otherwise unbounded.
- `Message.id` stands for the identity of the heap object: packet identifiers wrap around and are
  reused, and all lookups go by the first match, as in the code.
- Keys are compared by equality and hashes are arbitrary; a comparison function is the order of
  arbitrary ranks. A hash value belongs to its element for good.
- Measurements are real numbers, so rounding of `float` is not modelled.

## Where the code departs from what its documentation or the standard leads one to expect

- Message ordering (section 4.6 of MQTT 3.1.1) is not kept when the application publishes between a
  reconnect and the CONNACK, or from the connect callback, which runs before the retry pass:
  `Overtaking.OvertakingRun` and `Overtaking.CallbackRun`, with the exact conditions in
  `Overtaking.PublishKeepsOrderIff` and `Overtaking.ConnackKeepsOrderIff`.
- A CONNACK that raises the Receive Maximum charges waiting messages to the quota without sending
  them: `SendWindow.RaisedMaximumRun`, exactly when in `SendWindow.ConnackRestoresWindowIff`.
- A will payload over 65535 bytes makes the CONNECT packet shorter than its announced length:
  `ConnectPacket.LongWill`, exactly when in `ConnectPacket.ConnectLengthIff`.
- A PUBREL for an unknown message gives MQTT 5 receive quota back that was not taken, so more than
  Receive Maximum messages may be accepted: exactly when in `ReceiveWindow.StepEvenIff`.
- A bucket doubling reverses chains, so with several items under one key a lookup changes its
  result: `Buckets.TwoItemsOneKey`, exactly when in `Buckets.DoublingKeepsFindIff`. With unique keys
  it never does.
- A command byte of zero is taken for `nothing read yet`, so a pause after it changes what is read:
  `FrameStream.PauseIndependentIff`.
- The mode of every active period overwrites the selected mode, so neither the end of a period nor
  clearing the schedule brings the selected mode back, although http_server.c:484 says it is used
  again: `VentilationModes.SelectedModeLost`, exactly when in `VentilationModes.SelectedKeptIff` and,
  for a schedule, `VentilationModes.ScheduleKeepsIff`. A period that names manual mode moreover ends
  all automatic control: `VentilationModes.ManualMorning`, exactly when in
  `VentilationModes.ManualTakenIff`.
- Outside all periods nothing is turned off, against api.md:512: `VentilationModes.FanOutlivesPeriod`,
  exactly when in `VentilationModes.OffOutsideIff`.
- In both automatic modes the door goes with the window and not with the wind, and the window needs
  damp air inside, against the rules in api.md:379-470: `VentilationFan.DoorWithoutWind`, exactly when
  in `VentilationFan.AsDocumentedIff`.
- Posted times are not checked; for one that is not a time of day the schedule test is not the
  cyclic one: `VentilationModes.LateEndDisagrees`, exactly when in `VentilationModes.CyclicIff`.

## Model

| member | source | states |
|---|---|---|
| `Client.Mosquitto.ReleaseToInflight` | components/mosquitto/mosquitto/lib/messages_mosq.c:192-220 | the loop over `inflight`, updating state and quota in place, leaves exactly the session `MessageFlow.Release` describes: state set before the send, quota spent only after it, stop at the first failed send |
| `Client.Mosquitto.QueueOutgoing` | components/mosquitto/mosquitto/lib/messages_mosq.c:122-138 | an outgoing message is appended, counted, and whatever the quota allows is released |
| `Client.Mosquitto.QueueIncoming` | components/mosquitto/mosquitto/lib/messages_mosq.c:122-138 | an incoming message is appended and counted, and nothing is released |
| `Client.Mosquitto.ResetIncoming` | components/mosquitto/mosquitto/lib/messages_mosq.c:145-159 | incoming messages of QoS other than 2 are freed, the others cost receive quota |
| `Client.Mosquitto.ResetOutgoing` | components/mosquitto/mosquitto/lib/messages_mosq.c:161-187 | quota is handed out from the head of the queue; states fall back or become invalid position by position |
| `Client.Mosquitto.ReconnectReset` | components/mosquitto/mosquitto/lib/messages_mosq.c:140-189 | both passes together equal `MessageFlow.Reset` |
| `Client.Mosquitto.RemoveOutgoing` | components/mosquitto/mosquitto/lib/messages_mosq.c:223-276 | the first message with the mid is unlinked if its QoS is the expected one, else protocol error; an absent mid is reported |
| `Client.Mosquitto.RemoveIncoming` | components/mosquitto/mosquitto/lib/messages_mosq.c:223-276 | the same for the incoming queue, which it searches instead |
| `Client.Mosquitto.OutUpdate` | components/mosquitto/mosquitto/lib/messages_mosq.c:323-343 | the first message with the mid changes state if its QoS matches |
| `Client.Mosquitto.RetryCheck` | components/mosquitto/mosquitto/lib/messages_mosq.c:278-314 | the retry pass sends PUBLISH, PUBREC or PUBREL by state, sets `dup`, and ignores every send result |
| `Client.Mosquitto.MidGenerate` | components/mosquitto/mosquitto/lib/util_mosq.c:141-160 | the next packet identifier is the 16-bit successor that is not zero |
| `Client.Mosquitto.PublishMessage` | components/mosquitto/mosquitto/lib/actions.c:39-164 | a publish takes a mid; QoS 0 is sent at once, QoS 1 and 2 are queued in state invalid |
| `Client.Mosquitto.HandlePubackcomp` | components/mosquitto/mosquitto/lib/handle_pubackcomp.c:41-162 | quota back first, then the mid is looked up; both outcomes release queued messages |
| `Client.Mosquitto.HandlePubrec` | components/mosquitto/mosquitto/lib/handle_pubrec.c:40-134 | success moves the message to wait for PUBCOMP and sends PUBREL, an error code ends the exchange |
| `Client.Mosquitto.HandlePublish` | components/mosquitto/mosquitto/lib/handle_publish.c:38-172 | the QoS 0/1/2 switch with the MQTT 5 receive quota check before it |
| `Client.Mosquitto.HandlePubrel` | components/mosquitto/mosquitto/lib/handle_pubrel.c:41-141 | delivery only after PUBCOMP was sent and the message removed; a failed PUBCOMP drops it |
| `Client.Mosquitto.HandleConnack` | components/mosquitto/mosquitto/lib/handle_connack.c:59-136 | Receive Maximum, quota-only reset, connect callback, then the retry pass |
| `Client.Mosquitto.ReconnectClient` | components/mosquitto/mosquitto/lib/connect.c:158-228 | full reset before the socket is opened and CONNECT sent, with the states a refusal leaves |
| `Client.Mosquitto.LoopRead` | components/mosquitto/mosquitto/lib/loop.c:328-387 | an error from a handler closes the socket |
| `Client.Mosquitto.DisconnectClient` | components/mosquitto/mosquitto/lib/connect.c:236-265 | DISCONNECT is sent if there is a socket, and its result returned, else no-connection; the state changes either way |
| `SendWindow.ReleaseGrowsLead` | components/mosquitto/mosquitto/lib/messages_mosq.c:192-220 | with any sends failing: the in-flight prefix never shrinks, what is released is paid for, and with quota left at least one waiting message joins it |
| `SendWindow.ReleaseFillsWindow` | components/mosquitto/mosquitto/lib/messages_mosq.c:192-220 | with no send failing: the prefix grows by min(waiting, quota) and the quota pays exactly that |
| `SendWindow.ResetPositions` | components/mosquitto/mosquitto/lib/messages_mosq.c:161-187 | a reset keeps the first min(length, maximum) messages, makes all others invalid and leaves the unused quota |
| `SendWindow.QuotaResetWindowIff` | components/mosquitto/mosquitto/lib/messages_mosq.c:140-189 | the CONNACK reset establishes the exact window if and only if the first min(length, maximum) messages were in flight |
| `SendWindow.FullResetWindow` | components/mosquitto/mosquitto/lib/messages_mosq.c:140-189 | the reconnect reset establishes it under the same condition |
| `SendWindow.StepCovered` | components/mosquitto/mosquitto/lib/handle_pubackcomp.c:60-158 | one event of any kind keeps: the oldest min(length, maximum) messages are in flight, quota within 0..maximum and at least what they leave |
| `SendWindow.RunCovered` | components/mosquitto/mosquitto/lib/messages_mosq.c:122-220 | the same over every run, for any broker, any failing network and any application that publishes and disconnects (Receive Maximum not raised over what is in flight) |
| `SendWindow.RecoveryRestoresWindow` | components/mosquitto/mosquitto/lib/connect.c:158-228 | after any run whatever, a reconnect, and likewise the CONNACK reset, restores the window exactly |
| `SendWindow.AckKeepsWindowIff` | components/mosquitto/mosquitto/lib/handle_pubackcomp.c:60-158 | exactly which PUBACK and PUBCOMP packets keep the exact window: those naming a message in flight (or, with nothing in flight, any) |
| `SendWindow.PubrecKeepsWindowIff` | components/mosquitto/mosquitto/lib/handle_pubrec.c:105-133 | exactly which PUBREC packets keep it |
| `SendWindow.ConnackRestoresWindowIff` | components/mosquitto/mosquitto/lib/handle_connack.c:106-126 | a CONNACK restores the window if and only if what it makes the maximum is covered by messages in flight: a raised Receive Maximum is not |
| `SendWindow.RaisedMaximumRun` | components/mosquitto/mosquitto/lib/handle_connack.c:106-126 | a concrete run in which a raised Receive Maximum leaves the window wrong |
| `SendWindow.FairStepWindow` | components/mosquitto/mosquitto/lib/handle_pubackcomp.c:60-158 | one step with a fair broker and no send failing while connected keeps: exactly min(length, M) messages in flight, they are a prefix, quota = M minus their number |
| `SendWindow.FairRunWindow` | components/mosquitto/mosquitto/lib/messages_mosq.c:122-220 | the same over whole runs |
| `SendWindow.WindowAfterRecovery` | components/mosquitto/mosquitto/lib/connect.c:158-228 | the exact window in every connected state after any faulty past, one reconnect, and a fair future |
| `ExactlyOnce.StepSafe` | components/mosquitto/mosquitto/lib/messages_mosq.c:166-187 | a message with a processed success PUBREC stays committed and is not published by any single event |
| `ExactlyOnce.RunSafe` | components/mosquitto/mosquitto/lib/messages_mosq.c:278-314 | the same over every run, any broker, any failing sends, any number of reconnects, fixed maximum |
| `ExactlyOnce.NeverPublishedAgain` | components/mosquitto/mosquitto/lib/handle_pubrec.c:105-133 | in a session with an exact window and its queue in publish order, after a success PUBREC for a message in flight no later run with a fixed maximum attempts to publish that message (section 4.3.3 of MQTT 3.1.1) |
| `ExactlyOnce.NeverAgainAfterRecovery` | components/mosquitto/mosquitto/lib/handle_pubrec.c:105-133 | the same with nothing assumed of the session: any past from the initial session, a reconnect, a fair run, the PUBREC, and then any run with a fixed maximum |
| `ExactlyOnce.NeverAgainFromStart` | components/mosquitto/mosquitto/lib/handle_pubrec.c:105-133 | the same with a fair run from the initial session |
| `Identities.StepSorted` | components/mosquitto/mosquitto/lib/messages_mosq.c:122-220 | one event of any kind keeps the outgoing queue in the order of the publish calls, with no message twice |
| `Identities.RunSorted` | components/mosquitto/mosquitto/lib/messages_mosq.c:122-220 | the same over every run |
| `ExactlyOnce.CommitmentSurvivesResetIff` | components/mosquitto/mosquitto/lib/messages_mosq.c:166-187 | a reset keeps the commitment if and only if the position is below the send maximum |
| `Ordering.RunOrdered` | components/mosquitto/mosquitto/lib/actions.c:158-162 | over orderly runs the log stays in publish order and nothing transmitted overtakes a queued message |
| `Ordering.FirstTransmissionsInOrder` | components/mosquitto/mosquitto/lib/actions.c:158-162 | first transmissions of QoS 1 and 2 messages happen in the order of the publish calls (section 4.6 of MQTT 3.1.1), over fair runs in which, while messages wait to be resent, nothing above QoS 0 that could go out is published between a reconnect and its CONNACK or in the connect callback |
| `Ordering.RetryPassInOrder` | components/mosquitto/mosquitto/lib/messages_mosq.c:278-310 | each retry pass re-sends in queue order |
| `Overtaking.PublishKeepsOrderIff` | components/mosquitto/mosquitto/lib/messages_mosq.c:199-216 | an application's publish overtakes no queued message if and only if the quota is used up or everything in flight has been transmitted |
| `Overtaking.ConnackKeepsOrderIff` | components/mosquitto/mosquitto/lib/handle_connack.c:112-127 | a CONNACK with what its connect callback publishes keeps the order if and only if the queue fills the maximum, everything in flight has been transmitted, or the callback publishes at QoS 0 only |
| `Overtaking.OvertakingRun` | components/mosquitto/mosquitto/lib/connect.c:158-228 | a concrete run in which a publish between reconnect and CONNACK is transmitted before an older message |
| `Overtaking.CallbackRun` | components/mosquitto/mosquitto/lib/handle_connack.c:112-127 | a concrete run in which a publish from the connect callback is transmitted before an older message |
| `Calls.StepHolds` | components/mosquitto/mosquitto/lib/actions.c:109-160 | after any event the queue holds, in order, the messages of before without the one an acknowledgement ended, then the QoS 1 and 2 calls of the event with their mid, QoS and payload |
| `Calls.NothingLost` | components/mosquitto/mosquitto/lib/messages_mosq.c:122-276 | over every run, messages queued at first and QoS 1 and 2 calls = exchanges ended + messages still queued, as multisets |
| `Calls.MidsDistinct` | components/mosquitto/mosquitto/lib/util_mosq.c:141-160 | two calls fewer than 65535 apart have different packet identifiers |
| `Published.StepPublished` | components/mosquitto/mosquitto/lib/messages_mosq.c:192-314 | each PUBLISH of an event carries mid, QoS and payload of its call; outside retry passes its flag says exactly whether a retry pass has sent for the message before, inside one it is set |
| `Published.RunPublished` | components/mosquitto/mosquitto/lib/messages_mosq.c:192-314 | the same over every run, with the calls and retry passes of the run as history |
| `Published.PublishedAsCalled` | components/mosquitto/mosquitto/lib/actions.c:109-160 | over every run from the initial session, each PUBLISH sent at QoS 0, 1 or 2 has the mid, QoS and payload of the one publish call with its identity, the i-th call having mid i mod 65535 + 1 |
| `Published.RunMids` | components/mosquitto/mosquitto/lib/util_mosq.c:141-160 | over every run the calls take the identifiers 1 to 65535 in turn, round and round |
| `Published.FlagSaysResent` | components/mosquitto/mosquitto/lib/messages_mosq.c:285-308 | over every run the `dup` flag of a queued message says whether a retry pass has sent for it |
| `Conversation.RetryLog` | components/mosquitto/mosquitto/lib/messages_mosq.c:278-314 | position by position, the packets of a retry pass by message state: PUBLISH with `dup`, PUBREL or PUBREC with the mid, or none |
| `Conversation.ConnackResumes` | components/mosquitto/mosquitto/lib/handle_connack.c:106-132 | at each accepted CONNACK every queued message that waits to be published again is, with `dup`, and every one with a processed PUBREC gets its PUBREL |
| `Conversation.ExchangesResume` | components/mosquitto/mosquitto/lib/messages_mosq.c:166-187 | after a reconnect and its CONNACK each exchange inside the maximum goes on where it stood |
| `InFlight.RunProper` | components/mosquitto/mosquitto/lib/messages_mosq.c:192-220 | over every run a queued message waits or is in a state of the exchange of its QoS |
| `InFlight.RunResumes` | components/mosquitto/mosquitto/lib/messages_mosq.c:166-187 | so after any run a reconnect and its CONNACK take up every exchange under way inside the maximum, with PUBREL exactly if the PUBREC was processed |
| `InFlight.NothingWaits` | components/mosquitto/mosquitto/lib/messages_mosq.c:192-220 | after a publish and after each acknowledgement that ends an exchange, known or not, the quota is used up, no message waits, or a send was refused |
| `Conversation.StepTrace` | components/mosquitto/mosquitto/lib/handle_publish.c:123-171 | exactly which answers, callbacks, QoS 0 packets and retries an event causes, in which order and with which contents |
| `Conversation.RunTrace` | components/mosquitto/mosquitto/lib/handle_pubrec.c:105-133 | the same over every run, the PUBREL answering a success PUBREC included |
| `Conversation.RunHeard` | components/mosquitto/mosquitto/lib/handle_publish.c:132-155 | over every run the application is handed exactly the QoS 0 and 1 messages not refused, each once, in order, with mid and payload of the packet, whether or not the PUBACK could be sent |
| `Conversation.AnswerAttempted` | components/mosquitto/mosquitto/lib/handle_publish.c:140-171 | the answer to a packet is the first thing attempted, with the result the network gives |
| `Conversation.StepConnection` | components/mosquitto/mosquitto/lib/loop.c:328-387 | exactly which events leave the socket open, and the client state after each |
| `Conversation.HandlerResult` | components/mosquitto/mosquitto/lib/handle_pubackcomp.c:60-158 | exactly which code each handler returns for each packet |
| `Conversation.PublishResult` | components/mosquitto/mosquitto/lib/actions.c:109-160 | a legal publish call succeeds exactly if the network took everything it sent, an illegal one changes nothing |
| `Receive.RunConserves` | components/mosquitto/mosquitto/lib/handle_publish.c:123-171 | over every run: accepted QoS 2 messages = delivered + queued + dropped by a failed PUBCOMP, as multisets, and both `queue_len` counters equal the list lengths |
| `Receive.StepConserves` | components/mosquitto/mosquitto/lib/handle_pubrel.c:109-141 | the same for one event |
| `Receive.DeliveredAtMostOnce` | components/mosquitto/mosquitto/lib/handle_pubrel.c:109-141 | each accepted message is in exactly one place and is never delivered twice |
| `Receive.PubrelAbsent` | components/mosquitto/mosquitto/lib/handle_pubrel.c:113-141 | a PUBREL for an absent mid delivers nothing and is still answered with a PUBCOMP |
| `Receive.ResetConserves` | components/mosquitto/mosquitto/lib/messages_mosq.c:145-159 | counting before deleting gives the right `queue_len` because only QoS 2 is ever queued |
| `Receive.RefusedOnlyWhenFull` | components/mosquitto/mosquitto/lib/handle_publish.c:72-79 | MQTT 5 flow control refuses a PUBLISH only when Receive Maximum messages are queued |
| `ReceiveWindow.RunEven` | components/mosquitto/mosquitto/lib/handle_publish.c:72-171 | over every run in which each PUBREL names a queued message or none is queued, the MQTT 5 receive quota is Receive Maximum less the messages queued |
| `ReceiveWindow.StepEvenIff` | components/mosquitto/mosquitto/lib/handle_pubrel.c:109-141 | exactly which events keep that: all but a PUBREL for an unknown message while others are queued |
| `ReceiveWindow.RefusedIffFull` | components/mosquitto/mosquitto/lib/handle_publish.c:72-79 | and then a well-formed PUBLISH above QoS 0 is refused exactly if Receive Maximum messages are queued |
| `Varint.EncodeLength` | components/mosquitto/mosquitto/lib/packet_datatypes.c:262-275 | for every 32-bit value the encoding is as long as `packet__varint_bytes` says |
| `Varint.DigitsOfEncode` | components/mosquitto/mosquitto/lib/packet_datatypes.c:239-259 | decoding an encoding gives the value back |
| `Varint.TerminatedIsEncode` | components/mosquitto/mosquitto/lib/packet_datatypes.c:206-236 | every terminated digit string that is not overlong is the encoding of its value |
| `Varint.PrefixTerminatedUnique` | components/mosquitto/mosquitto/lib/packet_datatypes.c:206-236 | at most one encoding starts a given string of bytes |
| `PacketBuffer.Packet.Alloc` | components/mosquitto/mosquitto/lib/packet_mosq.c:50-87 | succeeds exactly when the remaining length fits four bytes, and the buffer then starts with command and encoded length and has room for exactly the rest |
| `PacketBuffer.Packet.WriteByte` | components/mosquitto/mosquitto/lib/packet_datatypes.c:61-68 | the byte is appended to what was written |
| `PacketBuffer.Packet.WriteBytes` | components/mosquitto/mosquitto/lib/packet_datatypes.c:83-92 | the bytes are appended |
| `PacketBuffer.Packet.WriteString` | components/mosquitto/mosquitto/lib/packet_datatypes.c:145-150 | length and bytes are appended |
| `PacketBuffer.Packet.WriteUint16` | components/mosquitto/mosquitto/lib/packet_datatypes.c:171-175 | two bytes, most significant first |
| `PacketBuffer.Packet.WriteUint32` | components/mosquitto/mosquitto/lib/packet_datatypes.c:197-203 | four bytes, most significant first |
| `PacketBuffer.Packet.WriteVarint` | components/mosquitto/mosquitto/lib/packet_datatypes.c:239-259 | writes the base-128 encoding, in full even when it then reports a fifth byte as an error |
| `PacketBuffer.Packet.ReadByte` | components/mosquitto/mosquitto/lib/packet_datatypes.c:49-58 | inverse of writing a byte, failing exactly at the end |
| `PacketBuffer.Packet.ReadBytes` | components/mosquitto/mosquitto/lib/packet_datatypes.c:71-80 | inverse of writing bytes, failing exactly when too few are left |
| `PacketBuffer.Packet.ReadUint16` | components/mosquitto/mosquitto/lib/packet_datatypes.c:153-168 | inverse of the writer |
| `PacketBuffer.Packet.ReadUint32` | components/mosquitto/mosquitto/lib/packet_datatypes.c:178-194 | inverse of the writer |
| `PacketBuffer.Packet.ReadBinary` | components/mosquitto/mosquitto/lib/packet_datatypes.c:95-123 | inverse of writing a string; fails exactly on bytes that start with no encoded string |
| `PacketBuffer.Packet.ReadVarint` | components/mosquitto/mosquitto/lib/packet_datatypes.c:206-236 | accepts exactly the encodings of values below 2^28 and inverts them; rejects exactly the bytes that start with none |
| `ConnectPacket.ComputeLength` | components/mosquitto/mosquitto/lib/send_connect.c:71-144 | the accumulated `headerlen` and `payloadlen` are the specified remaining length |
| `ConnectPacket.SendConnect` | components/mosquitto/mosquitto/lib/send_connect.c:37-213 | the packet is refused exactly for the illegal configurations; every write has room; the buffer ends up full if and only if every field fits 16 bits |
| `ConnectPacket.ConnectLengthIff` | components/mosquitto/mosquitto/lib/send_connect.c:71-202 | bytes written = length computed if and only if every field is at most 65535 bytes; a longer one is counted in full and written modulo 65536 |
| `ConnectPacket.LongWill` | components/mosquitto/mosquitto/lib/send_connect.c:71-202 | a concrete configuration, with a will payload of 65536 bytes, for which 65554 bytes are announced and 18 written |
| `ConnectReader.ConnectRoundTrip` | components/mosquitto/mosquitto/lib/send_connect.c:145-202 | a CONNECT reader written from section 3.1 of MQTT 3.1.1 and 5.0 gets every field back, for all protocol versions and field combinations |
| `ConnectReader.PacketRoundTrip` | components/mosquitto/mosquitto/lib/send_connect.c:136-213 | the whole packet, command byte 0x10 and encoded length first, is read back as the configuration |
| `FrameReader.Reader.ErrnoResult` | components/mosquitto/mosquitto/lib/packet_mosq.c:404-420 | which error of a read gives which result |
| `FrameReader.Reader.PacketRead` | components/mosquitto/mosquitto/lib/packet_mosq.c:356-579 | one call, on any schedule of short reads and EAGAIN, leaves `in_packet` and the handed-over frames as the byte-wise decoder says; without a socket or while connecting it reads nothing, and otherwise it reads something whenever the network delivers |
| `FrameReader.Reader.ReadCommand` | components/mosquitto/mosquitto/lib/packet_mosq.c:389-420 | the command byte is read only if it is zero, i.e. not yet read |
| `FrameReader.Reader.ReadLengthBytes` | components/mosquitto/mosquitto/lib/packet_mosq.c:421-459 | the length loop keeps `remaining_mult` = 128^(bytes read) and refuses a fifth byte |
| `FrameReader.Reader.ReadLength` | components/mosquitto/mosquitto/lib/packet_mosq.c:421-468 | after the length bytes, the buffer and the counters for the body |
| `FrameReader.Reader.ReadBody` | components/mosquitto/mosquitto/lib/packet_mosq.c:519-556 | `pos + to_process = remaining_length` through every short read |
| `FrameReader.Reader.HandlePacket` | components/mosquitto/mosquitto/lib/packet_mosq.c:558-579 | the frame is handed over and `in_packet` is clean again |
| `FrameStream.CallIsFeed` | components/mosquitto/mosquitto/lib/packet_mosq.c:356-579 | stopping and resuming changes nothing when no command byte is zero |
| `FrameStream.PauseIndependentIff` | components/mosquitto/mosquitto/lib/packet_mosq.c:389-420 | a pause after a command byte is harmless if and only if that byte is not zero |
| `FrameStream.ReadMany` | components/mosquitto/mosquitto/lib/packet_mosq.c:356-579 | any number of calls on any delivery: frames and remembered state are a function of the bytes consumed; if the network delivers, enough calls consume everything |
| `FrameStream.FeedStream` | components/mosquitto/mosquitto/lib/packet_mosq.c:430-579 | a stream of frames decodes to exactly those frames |
| `FrameStream.DeliveredInOrder` | components/mosquitto/mosquitto/lib/packet_mosq.c:356-579 | what has been handed over is always a prefix of the frames sent, and all of them once the stream is consumed |
| `FrameStream.ReadStream` | components/mosquitto/mosquitto/lib/packet_mosq.c:356-579 | the reader itself on a connection that carries frames: what it has handed over is a prefix of the frames sent, all of them once everything is consumed, which a delivering network and enough calls bring about |
| `FrameStream.Explain` | components/mosquitto/mosquitto/lib/packet_mosq.c:356-579 | conversely the bytes consumed are those of the frames handed over and of one unfinished frame |
| `FrameStream.CanonicalWellFormed` | components/mosquitto/mosquitto/lib/packet_mosq.c:50-87 | what `packet__alloc` lays out is a frame the reader accepts |
| `FrameWriter.Writer.Append` | components/mosquitto/mosquitto/lib/packet_mosq.c:150-177 | the packet joins the end of the waiting list, its counters set, the list properly linked |
| `FrameWriter.Writer.Enqueue` | components/mosquitto/mosquitto/lib/packet_mosq.c:142-177 | one more packet is accepted and its bytes promised after all earlier ones |
| `FrameWriter.Writer.PacketQueue` | components/mosquitto/mosquitto/lib/packet_mosq.c:142-208 | and outside callbacks and without a network thread it is written at once, with exactly the effect of `packet__write` on all packets waiting |
| `FrameWriter.Writer.SendPacket` | components/mosquitto/mosquitto/lib/packet_mosq.c:262-292 | the loop of partial writes: how many bytes of the packet go on the wire, which ones, and with which result |
| `FrameWriter.Writer.SendCurrent` | components/mosquitto/mosquitto/lib/packet_mosq.c:262-292 | and the wire is still a prefix of what was promised |
| `FrameWriter.Writer.PacketWrite` | components/mosquitto/mosquitto/lib/packet_mosq.c:226-353 | the wire stays a prefix of the accepted packets in order and grows by exactly what the network took; a socket stays open if no packet has a command from 0xE0 to 0xEF, and else is closed exactly when the first such packet is out, after which nothing more goes out |
| `FrameWriter.Writer.Finish` | components/mosquitto/mosquitto/lib/packet_mosq.c:294-341 | a finished packet is freed once and the next takes its place; a command from 0xE0 to 0xEF closes the socket, and no other does |
| `FrameWriter.Writer.CleanupAll` | components/mosquitto/mosquitto/lib/packet_mosq.c:105-128 | every packet not yet freed is freed exactly once, in order |
| `FrameWriter.EverythingGoesOut` | components/mosquitto/mosquitto/lib/packet_mosq.c:259-346 | if the network takes something at each of enough attempts, every queued byte is written |
| `FrameWriter.WireIsPrefix` | components/mosquitto/mosquitto/lib/packet_mosq.c:226-353 | the wire is a prefix of what was promised, all of it when nothing waits, and `out_packet_count` is the length of the waiting list |
| `FrameWriter.SendBytesExact` | components/mosquitto/mosquitto/lib/packet_mosq.c:262-292 | of one packet goes out the minimum of its length and what the network takes |
| `FrameWriter.WriteLoadsBound` | components/mosquitto/mosquitto/lib/packet_mosq.c:259-346 | of all packets no more goes out than the network takes |
| `FrameWriter.RefusedResult` | components/mosquitto/mosquitto/lib/packet_mosq.c:273-291 | which error of a write gives which result |
| `FrameWriter.ClosedIff` | components/mosquitto/mosquitto/lib/packet_mosq.c:294-341 | nothing after the first DISCONNECT goes out, and the socket is closed exactly if everything up to it did |
| `DoublyLinkedList.List.Append` | components/mosquitto/mosquitto/deps/utlist.h:639-651 | the element joins the end; all links and the head's link to the tail are right |
| `DoublyLinkedList.List.Prepend` | components/mosquitto/mosquitto/deps/utlist.h:624-634 | the element becomes the head |
| `DoublyLinkedList.List.AppendElem` | components/mosquitto/mosquitto/deps/utlist.h:803-820 | the element goes after a given one, or to the front |
| `DoublyLinkedList.List.FindLowerBound` | components/mosquitto/mosquitto/deps/utlist.h:672-683 | the element before the first that does not compare below, or none |
| `DoublyLinkedList.List.InsertInOrder` | components/mosquitto/mosquitto/deps/utlist.h:656-667 | insertion before the first element that does not compare below; a sorted list stays sorted, equal elements come after the new one |
| `DoublyLinkedList.List.Delete` | components/mosquitto/mosquitto/deps/utlist.h:706-723 | the element is gone, all others keep their order and links |
| `DoublyLinkedList.List.Sort` | components/mosquitto/mosquitto/deps/utlist.h:175-233 | the relinked list is the merge sort of the old one: sorted, stable, a permutation, with every back link and the tail restored |
| `ListSort.MergeRuns` | components/mosquitto/mosquitto/deps/utlist.h:199-222 | two neighbouring runs are relinked into their merge |
| `ListSort.MergePass` | components/mosquitto/mosquitto/deps/utlist.h:185-225 | one pass over the list, and the number of merges that decides whether another is needed |
| `ListSort.SortList` | components/mosquitto/mosquitto/deps/utlist.h:181-232 | the passes terminate with the sorted list, for both kinds of head |
| `StableSort.MergeSorted` | components/mosquitto/mosquitto/deps/utlist.h:199-222 | merging sorted runs gives a sorted run |
| `StableSort.MergeStable` | components/mosquitto/mosquitto/deps/utlist.h:207-216 | taking the first run's element on a tie keeps equal elements in order |
| `StableSort.PassRuns` | components/mosquitto/mosquitto/deps/utlist.h:185-225 | a pass turns sorted runs of n into sorted runs of 2n |
| `StableSort.SortCorrect` | components/mosquitto/mosquitto/deps/utlist.h:175-233 | the result is sorted, keeps the order within each rank, and is a permutation |
| `StableSort.StableUnique` | components/mosquitto/mosquitto/deps/utlist.h:175-233 | there is only one such result |
| `StableSort.InsertBeforeCorrect` | components/mosquitto/mosquitto/deps/utlist.h:656-683 | what `DL_INSERT_INORDER` keeps |
| `StableSort.InsertAfterCorrect` | components/mosquitto/mosquitto/deps/uthash.h:294-301 | what `HASH_ADD_INORDER` keeps |
| `StableSort.SortIsInsertion` | components/mosquitto/mosquitto/deps/uthash.h:980-1062 | the merge sort equals ordered insertion from the last element to the first (list macros) and from the first to the last (hash macros) |
| `Buckets.MaskIsMod` | components/mosquitto/mosquitto/deps/uthash.h:438-441 | masking a hash with the bucket count less one is the remainder |
| `Buckets.BucketDoubles` | components/mosquitto/mosquitto/deps/uthash.h:944-944 | on a doubling an item keeps its bucket or moves up by the old bucket count |
| `Buckets.IdealIsCeiling` | components/mosquitto/mosquitto/deps/uthash.h:936-938 | shift and mask compute items / new bucket count rounded up |
| `Buckets.RaisedIs` | components/mosquitto/mosquitto/deps/uthash.h:946-951 | how far a long chain's expansion threshold is raised |
| `Buckets.DoubledChain` | components/mosquitto/mosquitto/deps/uthash.h:939-960 | a doubling splits each chain in two, each half in reverse order |
| `Buckets.DoubledPlaced` | components/mosquitto/mosquitto/deps/uthash.h:923-973 | a doubling loses no item and puts each in its new bucket |
| `Buckets.DoubledTotal` | components/mosquitto/mosquitto/deps/uthash.h:923-973 | and duplicates none |
| `Buckets.FoundIff` | components/mosquitto/mosquitto/deps/uthash.h:835-854 | a lookup finds an item with the key exactly when the table holds one |
| `Buckets.DoubledFind` | components/mosquitto/mosquitto/deps/uthash.h:835-973 | after a doubling a lookup finds the last match of the old chain |
| `Buckets.DoublingKeepsFindIff` | components/mosquitto/mosquitto/deps/uthash.h:835-973 | a doubling leaves a lookup's result unchanged if and only if at most one item has the key |
| `Buckets.TwoItemsOneKey` | components/mosquitto/mosquitto/deps/uthash.h:835-973 | with two items under one key in a chain, a doubling makes a lookup find the other one |
| `HashBuckets.Table.constructor` | components/mosquitto/mosquitto/deps/uthash.h:220-249 | an empty table of 32 buckets |
| `HashBuckets.PushFront` | components/mosquitto/mosquitto/deps/uthash.h:860-866 | the item is the new head of its chain, counted and linked both ways |
| `HashBuckets.Table.AddToBucket` | components/mosquitto/mosquitto/deps/uthash.h:857-876 | to the front of its chain, and a doubling exactly when the chain reaches its threshold and expansion is not inhibited |
| `HashBuckets.Table.DelInBucket` | components/mosquitto/mosquitto/deps/uthash.h:879-892 | the item leaves its chain; the neighbours are linked, the count is right |
| `HashBuckets.Table.FindInBucket` | components/mosquitto/mosquitto/deps/uthash.h:835-854 | the first item of the chain with that hash and key |
| `HashBuckets.Table.Expand` | components/mosquitto/mosquitto/deps/uthash.h:923-973 | twice the buckets, every item in its new one, `ideal_chain_maxlen`, `nonideal_items`, `expand_mult`, `ineff_expands` and `noexpand` as specified |
| `HashTable.Hash.Add` | components/mosquitto/mosquitto/deps/uthash.h:404-423 | the item is last in app order and found by its key; everything `HASH_FSCK` checks still holds |
| `HashTable.Hash.AddInOrder` | components/mosquitto/mosquitto/deps/uthash.h:358-394 | the item goes before the first that compares above; a sorted order stays sorted |
| `HashTable.Hash.Find` | components/mosquitto/mosquitto/deps/uthash.h:164-174 | an item with the key exactly when the app order holds one, and the one item when keys are unique |
| `HashTable.Hash.Delete` | components/mosquitto/mosquitto/deps/uthash.h:458-485 | the item is gone from both threadings; the last one takes the table with it |
| `HashTable.Hash.Sort` | components/mosquitto/mosquitto/deps/uthash.h:980-1062 | the app order is the stable sort of the old one, with the tail restored and buckets and chains untouched |
| `HashTable.Hash.Check` | components/mosquitto/mosquitto/deps/uthash.h:523-570 | `HASH_FSCK` finds nothing wrong: chain back links, bucket counts, item counts, app-order back links |
| `VentilationControl.Controller.UpdateIndoor` | src/system_state.c:111-120 | readings, availability and time of the indoor sensor, and nothing else |
| `VentilationControl.Controller.UpdateOutdoor` | src/system_state.c:122-131 | the same for the outdoor sensor |
| `VentilationControl.Controller.UpdateWind` | src/system_state.c:133-140 | the same for the wind sensor |
| `VentilationControl.Controller.RefreshTimeouts` | src/system_state.c:168-209 | the readings of stale sensors are reset |
| `VentilationControl.Controller.PublishState` | src/system_state.c:211-229 | one message per changed actuator, and the last states are the present ones |
| `VentilationControl.Controller.ScheduleIsActive` | src/system_state.c:239-262 | the mode of the first active period, or none |
| `VentilationControl.Controller.GetControlFlags` | src/system_state.c:264-301 | the four flags as functions of mode, schedule and time |
| `VentilationControl.Controller.ApplyAutoLogic` | src/system_state.c:303-489 | the actuators AUTO_BEST and AUTO_ECO choose, and no change in any other mode |
| `VentilationControl.Controller.Update` | src/system_state.c:491-540 | a whole tick |
| `VentilationControl.Controller.PostActuators` | src/http_server.c:339-424 | forbidden, refused or accepted, and the state after each |
| `VentilationControl.Controller.PostMode` | src/http_server.c:284-337 | the mode changes exactly for 0, 1 and 2 |
| `VentilationControl.Controller.PostSchedule` | src/http_server.c:426-499 | at most eight periods replace the schedule |
| `VentilationSafety.ClampNeverFires` | src/system_state.c:523-530 | the clamp after the automatic logic never changes anything |
| `VentilationSafety.RunSafe` | src/system_state.c:491-540 | over every run the fan is on only while the window is open |
| `VentilationSafety.RunZeroed` | src/system_state.c:77-97 | over every run an unavailable sensor reads zero |
| `VentilationSafety.TimeoutExact` | src/system_state.c:168-209 | a sensor stays available exactly if its last message is recent enough |
| `VentilationSafety.EcoWithoutIndoor` | src/system_state.c:385-465 | in AUTO_ECO without the indoor sensor the fan is off and the window open only for an outdoor humidity below minus ten |
| `VentilationSafety.RunMirrored` | src/system_state.c:211-229 | over every run the published messages, replayed from all off, give the present actuators |
| `VentilationSafety.StepPublishesChanges` | src/system_state.c:211-229 | one message per actuator that changed and none for the others |
| `VentilationModes.ManualIffIdle` | src/system_state.c:264-301 | manual control is allowed exactly when a tick would return early |
| `VentilationModes.PostSurvives` | src/system_state.c:496-521 | actuators, mode and publications stay as they are through any run of sensor traffic and idle ticks |
| `VentilationModes.AcceptedPostHolds` | src/http_server.c:366-418 | an accepted actuator post lasts until a period becomes active or a post arrives |
| `VentilationModes.ManualSticks` | src/system_state.c:500-506 | only a mode post ends manual mode; until then the actuators are the last acceptable post |
| `VentilationModes.ModeIsLastNamed` | src/system_state.c:498-521 | between mode posts the mode is the one the last working tick found, that of its period or the selected one |
| `VentilationModes.SelectedKeptIff` | src/system_state.c:509-521 | the selected mode survives a run if and only if every working tick found a period naming it (or no schedule) |
| `VentilationModes.ScheduleKeepsIff` | src/system_state.c:239-262 | a schedule never takes the selected mode away if and only if at every time the first active period, where there is one, names it |
| `VentilationModes.ManualTakenIff` | src/system_state.c:500-521 | without a mode post, an automatic mode becomes manual mode if and only if some working tick found a period naming manual mode |
| `VentilationModes.ScheduledManualStays` | src/system_state.c:509-521 | a scheduled period in manual mode is not undone by its end |
| `VentilationModes.ManualMorning` | src/system_state.c:509-521 | a concrete schedule whose manual period is over while the controller is still in manual mode |
| `VentilationModes.SelectedModeLost` | src/http_server.c:473-485 | a concrete run in which the cleared schedule leaves AUTO_ECO although AUTO_BEST was selected |
| `VentilationModes.OffOutsideIff` | src/system_state.c:509-518 | outside all periods the actuators are all off if and only if they were when the last period ended |
| `VentilationModes.FanOutlivesPeriod` | src/system_state.c:509-518 | a fan that a period started runs on after the period and after both sensors timed out |
| `VentilationModes.CyclicIff` | src/system_state.c:251-257 | the comparisons are the cyclic test (now - start) mod 1440 <= (end - start) mod 1440 for all times of day if both ends are times of day, and otherwise only in three degenerate cases |
| `VentilationModes.LateEndDisagrees` | src/system_state.c:251-257 | 08:00 to 24:00 misses midnight |
| `VentilationModes.DecidedByFirstCyclic` | src/system_state.c:239-262 | for a schedule of times of day the period that decides is the first one whose interval around the clock holds the present time |
| `VentilationModes.WellFormedMinutes` | src/system_state.c:231-237 | four digits of a time give its minutes |
| `VentilationFan.EcoLatch` | src/system_state.c:377-476 | over any run whose working ticks work in AUTO_ECO, by selection or by schedule, the fan is on exactly if some tick crossed a start limit and every tick since vented with humidity above 52 or temperature above 24 |
| `VentilationFan.ModesDifferInFan` | src/system_state.c:305-476 | with both sensors present the modes choose the same window, door and absorber, and exactly when their fans differ |
| `VentilationFan.AsDocumentedIff` | src/system_state.c:322-476 | exactly when the two modes follow the rules of api.md:379-470 |
| `VentilationFan.DoorWithoutWind` | src/system_state.c:325-327 | a state in which the door opens without wind |
| `VentilationFan.EcoWithinBest` | src/system_state.c:303-540 | over any run at all: a controller asked for AUTO_BEST, in mode posts and schedules, wherever another is asked for AUTO_ECO has its fan on whenever the other has |
| `VentilationRules.LackingTick` | src/system_state.c:311-396 | a working tick of AUTO_BEST without either sensor, or of AUTO_ECO without the outdoor one, leaves window and door as they were and turns fan and absorber off |
| `VentilationRules.MissingReadingsHold` | src/system_state.c:303-540 | over runs: while the readings are missing no tick moves window or door, and the first that works turns fan and absorber off |
| `VentilationRules.BestTick` | src/system_state.c:305-376 | what AUTO_BEST decides with both sensors, in numbers |
| `VentilationRules.EcoTick` | src/system_state.c:377-476 | what AUTO_ECO decides with the outdoor sensor, in numbers |
| `VentilationRules.IdleIff` | src/system_state.c:491-521 | a tick does nothing exactly in manual mode and outside all periods of a schedule |
| `VentilationRules.ModeIs` | src/system_state.c:239-262 | else it works in the mode of the first active period, or without a schedule in the selected one |
| `VentilationRules.FlagsAre` | src/system_state.c:264-301 | each of the four control flags as an equivalence |
| `VentilationRules.ActuatorPostIs` | src/http_server.c:339-424 | exactly when an actuator post is forbidden, refused or taken |
| `JsonEscape.Response.SendEscaped` | src/http_server.c:35-85 | the chunks sent are those of the specification, in order; on a failed send a prefix of them and an error |
| `JsonEscape.ChunksRoundTrip` | src/http_server.c:35-85 | the chunks together are the escaped string without control characters, and unescaping gives that string back |
| `JsonEscape.ChunksWellFormed` | src/http_server.c:49-84 | no chunk is empty or over 95 bytes, and no escape is split between two |
| `JsonEscape.ChunksFull` | src/http_server.c:49-84 | every chunk but the last holds at least 94 bytes |
| `TopicTokens.Tokenise` | components/mosquitto/mosquitto/lib/mosquitto.c:340-394 | as many levels as counted, each stored terminated, an empty one as no string; every array write in range |
| `TopicTokens.JoinSplit` | components/mosquitto/mosquitto/lib/mosquitto.c:340-394 | the levels joined by slashes are the topic, one more than there are slashes |
| `TopicTokens.SplitJoin` | components/mosquitto/mosquitto/lib/mosquitto.c:340-394 | levels without slashes come back from their join |
| `TopicTokens.SplitUnique` | components/mosquitto/mosquitto/lib/mosquitto.c:340-394 | the stored levels are the only levels without slashes that join to the topic |

## Left out

- The `WITH_BROKER` branches, sockets, TLS, SOCKS, DNS, select loops, keepalive and timestamps.
- Threads and mutexes: interleavings of two `publish_state` calls are not modelled, so the replay
  law is about publications made with their state change; nor are messages dropped by a publisher that is not
  connected.
- MQTT 5 property lists: bytes of known length.
- SendWindow.RunCovered: the application publishes and disconnects; `mosquitto_int_option`
  (options.c:453-472), which can change both maxima at any time, is not an event.
- Client.Mosquitto.PublishMessage: maximum QoS, maximum packet size, payload size and the property,
  topic and UTF-8 checks; a call they refuse changes nothing, like the call with an illegal QoS that
  is modelled, and differs in the code returned.
- Client.Mosquitto.HandleConnack: the connect callback for a version 3 CONNACK that refuses the
  protocol version, and the refusal of an assigned client identifier, which ends like a packet that
  cannot be decoded except for the code returned.
- Client.Mosquitto.DisconnectClient: the property and reason code checks before it, and the
  `request_disconnect` flag, which only the threads of the library read.
- Client.Mosquitto.ReleaseToInflight: the queues of the client are `seq` fields that the methods
  reassign; the linked lists under them are modelled once, in DoublyLinkedList.
- Client.Mosquitto.MidGenerate: mids may repeat among outstanding messages, as in the code; the
  theorems about a mid speak of the first match.
- Client.Mosquitto.ReconnectClient: the property checks before it and the code returned. A Receive
  Maximum among the connect properties overwrites the receive maximum and quota
  (send_connect.c:73-79); here they stay what they are. The packet queue that it empties is modelled
  in FrameWriter, and a send attempt in the flow stands for queueing a packet; an attempt that fails
  is one for which the queueing call reports an error.
- FrameWriter.Writer.PacketWrite: the `on_publish` callback for QoS 0 messages, from which more packets
  could be queued inside the loop.
- FrameWriter.Writer.CleanupAll: the cleanup of `in_packet` at its end, which is
  FrameReader.Reader.PacketCleanup.
- FrameReader.Reader.PacketRead: the packet handler is opaque; only the frame handed to it is
  recorded.
- PacketBuffer.Packet.Alloc: memory exhaustion.
- HashTable.Hash.Add: `HASH_BLOOM`, the out-of-memory variants and the hash functions; keys are
  integers rather than byte strings; bucket counts do not wrap at 32 bits.
- ListSort.SortList: run lengths do not wrap at 31 bits.
- Other list macros (concatenation, circular and singly linked lists), `HASH_SELECT`, `HASH_CLEAR`.
- VentilationControl.Controller.PostActuators: the bodies of posts are read by `sscanf`, which is
  left out; the integers read are the parameters. Status texts, the OLED, LEDs, Wi-Fi and time
  synchronisation are left out.
- VentilationControl.Controller.PostSchedule: periods are given as read; a time has seven bytes of
  any content.
- JsonEscape.Response.SendEscaped: a null string, for which nothing is sent.
- TopicTokens.Tokenise: memory exhaustion.
- The command-line clients, which only add parsing of options.
