# HidroControl-3: a verified model

This project models the firmware of a two-pump controller: the MQTT client it reports through, and the controller itself.
Everything is proved for all inputs, all runs or all reachable states.

* **Wire codecs** (`Bytes`, `FixedHeader`, `Wire`, `MqttReaders`, `MqttMsg`, `ConnectMsg`, `SubscribeMsg`, `Mqtt5Wire`,
  `Mqtt5Msg`). Builders work in place on the outbound buffer and are proved against packet layouts; readers and
  independent decoders are proved to undo them. `PacketBytes` gives the packets byte by byte.
* **Outbox** (`OutboxSpec`, `Outbox`). A linked list with tail pointer and byte count, proved equal to a sequence.
* **Publishing** (`ClientPublish`, `Transport`). Storing a message and sending it in pieces no longer than the buffer,
  against a network that takes as much of a write as it likes.
* **Receiving** (`Framing`, `Receiver`). A resumable receiver against a simple splitter of the byte stream, and the
  delivery of long messages in parts.
* **Session** (`Session`, `SessionCore`, `SessionProofs`, `SessionRuns`, `SessionLinks`, `SessionKeepalive`,
  `SessionReplies`, `SessionResend`, `SessionSteps`, `ClientTask`, `ClientBytes`). The client task as a state machine whose steps
  are the program's locked regions; invariants over every run; what each reply, retransmission and request comes to, in terms of
  outbox, ledger, writes and events alone; and the same task on mutable fields and the linked outbox, refining the state
  machine step by step.
* **Display** (`Oled`). Line drawing into a page-packed bit buffer.
* **Controller** (`Clock`, `Modos`, `Pump`). Debounced mode button, flow sensing, hold-off and relays on 32-bit clocks.

Where behaviour and intention part, the model keeps the behaviour:

* A fragment offset left over from storing a long message makes the next publish send the end of its payload twice
  or read outside it (`ClientPublish.StaleOffset`); `ClientPublish.SentExactly` says exactly when it does not.
* Enqueueing a QoS 0 message that does not fit the buffer, without storing it, leaves a fragment total pending that falsifies the
  length of whatever is built next (`ClientPublish.PendingTotal`, `MqttMsg.Connection.Acknowledge`); a publish with a payload
  overcomes it.
* A receive call resumed inside the body of a packet of at most five bytes may read past its end
  (`Receiver.Receiver.Poll`, `Receiver.TrapExample`, `Receiver.SafeIff`).
* The size check for long messages is two bytes short, so that a message may be taken whose variable header does not fit
  (`Receiver.DeliveryExact`, `Receiver.DeliveryFails`).
* A timeout in the middle of a long message is treated as success, although the rest of the message is still in the stream
  (`Receiver.Receiver.DeliverPublish` reports it as its own outcome).
* A message whose first transmission failed part of the way is sent again with DUP 0 (`SessionRuns.RetryAfterFailedWrite`,
  `SessionRuns.RetryRunWrites`).
* Stopping the client leaves the application's connected flag up (`SessionLinks.StopLeavesFlag`).
* When two clock readings of one turn differ, hold-off is missed for that turn (`Pump.DemandInFirstRound`,
  `Pump.DemandMissed`); after 2^32 ms the relays are
  inhibited for three seconds again (`Pump.InhibitRecurs`, `Pump.RelaysIff`).
* Properties of an MQTT 5.0 message longer than 65535 bytes hide its payload (`Mqtt5Wire.PayloadFoundIff`).
* Response information cuts the last byte off the response topic it is joined to (`Mqtt5Msg.JoinedTopicCut`).
* A button that is not sampled for 2^32 - 120 ms may have a press missed (`Modos.WrapHidesARun`); `Modos.FlipInRun` says exactly when.

## Model

| member | source | states |
|---|---|---|
| `Bytes.LenRoundTrip` | managed_components/espressif__mqtt/lib/mqtt_msg.c:141-159 | reading an encoded length gives back the number and consumes exactly its bytes, whatever follows |
| `Bytes.EncodeLenShortest` | managed_components/espressif__mqtt/lib/mqtt5_msg.c:36-48 | no other byte string of the same value is shorter, as section 1.5.5 of MQTT 5.0 asks |
| `Bytes.EncodeLenSize` | managed_components/espressif__mqtt/lib/mqtt_msg.c:98-139 | the four size thresholds of the length, both ways; four bytes suffice exactly below 2^28 |
| `Bytes.Str16RoundTrip` | managed_components/espressif__mqtt/lib/mqtt_msg.c:49-61 | a length-prefixed string is read back with what follows it exactly if it is shorter than 65536 bytes |
| `FixedHeader.HeaderFields` | managed_components/espressif__mqtt/lib/include/mqtt_msg.h:96-123 | type, DUP, QoS and RETAIN come back from a header byte undisturbed, and setting DUP changes DUP alone |
| `FixedHeader.HeaderOfFields` | managed_components/espressif__mqtt/lib/include/mqtt_msg.h:96-123 | every byte is the header of its own four fields |
| `FixedHeader.HeaderMasks` | managed_components/espressif__mqtt/lib/mqtt_msg.c:131-132 | the masks and shifts of the builder compute the arithmetic header byte |
| `FixedHeader.DupMask` | managed_components/espressif__mqtt/lib/include/mqtt_msg.h:112-115 | setting bit 3 with or is setting DUP |
| `FixedHeader.AccessorMasks` | managed_components/espressif__mqtt/lib/include/mqtt_msg.h:96-123 | the masks and shifts of the accessors read type, DUP, QoS and RETAIN |
| `FixedHeader.ValidHeaderMasks` | managed_components/espressif__mqtt/lib/mqtt_msg.c:583-617 | the check of the first byte is the program's switch over the type with its masks on flags, QoS and DUP, for every byte |
| `FixedHeader.ValidHeaderBytes` | managed_components/espressif__mqtt/lib/mqtt_msg.c:583-617 | the 23 legal first bytes one by one: among them 0x32, a first PUBLISH of QoS 1, and not 0x38, one of QoS 0 with DUP |
| `FixedHeader.LengthStep` | managed_components/espressif__mqtt/lib/mqtt_msg.c:141-159 | the masks of the length loops take seven bits of value and the continuation bit |
| `Wire.PublishReads` | managed_components/espressif__mqtt/lib/mqtt_msg.c:192-338 | topic, data, id, QoS and total-length readers applied to a PUBLISH, or to any first part of it that holds the variable header, return what was encoded; an empty payload reads as length 0 |
| `Wire.AckReads` | managed_components/espressif__mqtt/lib/mqtt_msg.c:278-338 | the identifier of each acknowledgement comes back |
| `Wire.DupReads` | managed_components/espressif__mqtt/lib/include/mqtt_msg.h:112-115 | setting DUP in the stored copy leaves type, QoS, RETAIN, topic, id, payload and length readings alone |
| `Wire.DupPacket` | managed_components/espressif__mqtt/lib/include/mqtt_msg.h:112-115 | the stored copy with DUP set is the packet an encoder with DUP 1 would have built |
| `MqttReaders.ScanLength` | managed_components/espressif__mqtt/lib/mqtt_msg.c:141-159 | the length loop computes value and end of the variable byte integer at any offset |
| `MqttReaders.GetPublishTopic` | managed_components/espressif__mqtt/lib/mqtt_msg.c:192-216 | the reader loop meets the reader function on every byte string |
| `MqttReaders.GetPublishData` | managed_components/espressif__mqtt/lib/mqtt_msg.c:218-264 | offset and length of the payload part in the buffer, or nothing |
| `MqttReaders.GetId` | managed_components/espressif__mqtt/lib/mqtt_msg.c:278-338 | the identifier by packet type, or 0 |
| `MqttMsg.Connection.AppendString` | managed_components/espressif__mqtt/lib/mqtt_msg.c:49-61 | appends a length-prefixed string or leaves the buffer as it was |
| `MqttMsg.Connection.Finish` | managed_components/espressif__mqtt/lib/mqtt_msg.c:98-139 | header and length are written backwards into the gap so that the message is header, length, body; an unfinished fragmented message overrides the length; too long means empty |
| `MqttMsg.EncodeRemaining` | managed_components/espressif__mqtt/lib/mqtt_msg.c:98-121 | the encoding loop yields the encoded length |
| `MqttMsg.HeaderChoice` | managed_components/espressif__mqtt/lib/mqtt_msg.c:98-139 | a length field announcing n makes a packet of a body exactly if n is the body length |
| `MqttMsg.Connection.Acknowledge` | managed_components/espressif__mqtt/lib/mqtt_msg.c:479-513 | builds the acknowledgement packet, given room, exactly if no fragment total of another message overrides its length |
| `MqttMsg.Connection.Publish` | managed_components/espressif__mqtt/lib/mqtt_msg.c:439-477 | for every topic, payload, QoS, buffer and pending fragment total: fails exactly when header, topic and id do not fit, the topic is empty, or the length has no encoding; otherwise message plus payload bytes not buffered are what an unlimited encoder would build; and the fragment total left behind |
| `MqttMsg.BuiltIsPacket` | managed_components/espressif__mqtt/lib/mqtt_msg.c:463-476 | that is the one packet exactly unless a null payload meets the fragment total of another message |
| `ConnectMsg.Connect` | managed_components/espressif__mqtt/lib/mqtt_msg.c:340-437 | given room the message is header, length and body of the CONNECT packet, flags patched in place, and the packet exactly if no fragment total overrides the length; otherwise it is empty |
| `ConnectMsg.ConnectReads` | managed_components/espressif__mqtt/lib/mqtt_msg.c:340-437 | a decoder written from section 3.1 of MQTT 3.1.1 gets back exactly the configured fields, password implying user name, if and only if a will asks for QoS 0, 1 or 2 |
| `ConnectMsg.FlagsFields` | managed_components/espressif__mqtt/lib/mqtt_msg.c:41-47 | the six flag fields do not disturb each other |
| `PacketBytes.ConnectBytes` | managed_components/espressif__mqtt/lib/mqtt_msg.c:340-437 | CONNECT as bytes: 0x10, length, name and level of 3.1 or 3.1.1, flags, keepalive |
| `PacketBytes.ConnectFlags` | managed_components/espressif__mqtt/lib/mqtt_msg.c:41-47 | each bit of the CONNECT flags says what it should of the configuration |
| `PacketBytes.SubscribeBytes` | managed_components/espressif__mqtt/lib/mqtt_msg.c:515-540 | SUBSCRIBE for one filter as bytes: 0x82, length, identifier, filter with its length, QoS |
| `PacketBytes.AckBytes` | managed_components/espressif__mqtt/lib/mqtt_msg.c:479-513 | the four acknowledgements as bytes: 0x40, 0x50, 0x62 or 0x70, then 2 and the identifier, high byte first |
| `PacketBytes.PublishBytes` | managed_components/espressif__mqtt/lib/mqtt_msg.c:439-477 | PUBLISH as bytes: 0x30 plus flags, length, topic with its length, identifier exactly for QoS 1 and 2, payload |
| `PacketBytes.Publish5First` | managed_components/espressif__mqtt/lib/mqtt5_msg.c:723-808 | the first byte of an MQTT 5.0 PUBLISH is 0x30 plus flags |
| `PacketBytes.PropertyTags` | managed_components/espressif__mqtt/lib/include/mqtt5_msg.h:13-40 | the identifier in front of each kind of property, as a number |
| `PacketBytes.ReplyBytes` | managed_components/espressif__mqtt/lib/include/mqtt_msg.h:47-62 | the bytes of PUBACK, PUBREC, PUBREL, PUBCOMP, SUBACK, UNSUBACK and PINGRESP are taken for just those, with any identifier |
| `PacketBytes.PublishDecodes` | managed_components/espressif__mqtt/mqtt_client.c:1388-1462 | a PUBLISH from a peer with any flags, topic, identifier and payload is taken for that, with its QoS and identifier |
| `PacketBytes.ReadersOnShort` | managed_components/espressif__mqtt/lib/mqtt_msg.c:192-264 | what the readers of topic, identifier and payload answer on any bytes behind a one-byte length, cut off anywhere |
| `PacketBytes.PacketIsFrame` | managed_components/espressif__mqtt/lib/mqtt_msg.c:583-617 | header, length and body are a packet to the receiver exactly if the first byte is legal and the length below 2^28 |
| `PacketBytes.PublishIsFrame` | managed_components/espressif__mqtt/lib/mqtt_msg.c:604-613 | a PUBLISH is one exactly if its QoS is 0, 1 or 2, one of QoS 0 has DUP clear, and its length is below 2^28 |
| `PacketBytes.AckIsFrame` | managed_components/espressif__mqtt/lib/mqtt_msg.c:591-604 | an acknowledgement is one exactly with the flags its type asks for |
| `SubscribeMsg.Subscribe` | managed_components/espressif__mqtt/lib/mqtt_msg.c:515-540 | given nonempty filters and room, the message is header, length and body of the SUBSCRIBE packet, and the packet exactly if no fragment total overrides the length; otherwise it is empty |
| `SubscribeMsg.SubscribeReads` | managed_components/espressif__mqtt/lib/mqtt_msg.c:515-540 | a decoder written from section 3.8 of MQTT 3.1.1 gets back the ordered list of filters and QoS exactly if the list is not empty and every QoS is below 3 |
| `Mqtt5Msg.UpdatePropertyLen` | managed_components/espressif__mqtt/lib/mqtt5_msg.c:65-88 | one reserved byte and n property bytes become the shortest length of n followed by the same n bytes moved up, everything before and behind unchanged; without room -1, buffer untouched, length already raised |
| `Mqtt5Msg.ShiftUp` | managed_components/espressif__mqtt/lib/mqtt5_msg.c:77-82 | the overlapping copy, last byte first, moves the bytes up intact |
| `Mqtt5Msg.AppendProperty` | managed_components/espressif__mqtt/lib/mqtt5_msg.c:90-119 | tag, big-endian field and data are appended, or nothing is and -1 returned, exactly by room |
| `Mqtt5Msg.AppendProperties` | managed_components/espressif__mqtt/lib/mqtt5_msg.c:749-791 | the encoding of all set properties in order, or too long for the buffer |
| `Mqtt5Msg.Publish` | managed_components/espressif__mqtt/lib/mqtt5_msg.c:723-808 | for every topic, payload, properties and response information: fails exactly when something before the payload does not fit, neither topic nor alias is given, or the length has no encoding; otherwise message plus unbuffered payload are the one packet |
| `Mqtt5Msg.JoinedTopicCut` | managed_components/espressif__mqtt/lib/mqtt5_msg.c:760-773 | a response topic joined with response information is never the one meant: its last byte has given way to a zero |
| `Mqtt5Msg.GetPublishPropertyPayload` | managed_components/espressif__mqtt/lib/mqtt5_msg.c:302-410 | the parsing loops meet the parser function on every byte string |
| `Mqtt5Wire.PropertyReads` | managed_components/espressif__mqtt/lib/mqtt5_msg.c:333-401 | each kind of property is read back at any place in any buffer |
| `Mqtt5Wire.PropsRead` | managed_components/espressif__mqtt/lib/mqtt5_msg.c:333-401 | a property list of at most 65535 bytes is read back in order, up to its end |
| `Mqtt5Wire.ListedReads` | managed_components/espressif__mqtt/lib/mqtt5_msg.c:302-410 | reading the properties a publisher lists into an empty record gives back the publisher's |
| `Mqtt5Wire.Publish5Reads` | managed_components/espressif__mqtt/lib/mqtt5_msg.c:302-410 | parsing a built PUBLISH gives back topic, every property, the ordered user properties and the payload, for property lists up to 65535 bytes |
| `Mqtt5Wire.PayloadFoundIff` | managed_components/espressif__mqtt/lib/mqtt5_msg.c:328-333 | the payload is found exactly if the properties take at most 65535 bytes: their length is cut to 16 bits |
| `Outbox.Outbox.Enqueue` | managed_components/espressif__mqtt/lib/mqtt_outbox.c:42-65 | appends one queued item holding data and remaining data; list, tail pointer and size stay consistent |
| `Outbox.Outbox.InsertTail` | managed_components/espressif__mqtt/test/host/mocks/include/sys/queue.h:26-30 | the tail insertion keeps the links a chain ending at the tail pointer |
| `Outbox.Outbox.Get` | managed_components/espressif__mqtt/lib/mqtt_outbox.c:67-76 | the oldest item with the id, or none |
| `Outbox.Outbox.Dequeue` | managed_components/espressif__mqtt/lib/mqtt_outbox.c:78-90 | the oldest item in the state, with its tick, left in place |
| `Outbox.Outbox.Unlink` | managed_components/espressif__mqtt/test/host/mocks/include/sys/queue.h:47-71 | removal at the head or behind the predecessor takes out that item alone and mends the tail pointer |
| `Outbox.Outbox.DeleteItem` | managed_components/espressif__mqtt/lib/mqtt_outbox.c:92-106 | removes that very item, if it is there |
| `Outbox.Outbox.Delete` | managed_components/espressif__mqtt/lib/mqtt_outbox.c:120-135 | removes the oldest item with id and type, if there is one |
| `Outbox.Outbox.SetPending` | managed_components/espressif__mqtt/lib/mqtt_outbox.c:137-145 | changes the state of the oldest item with the id and nothing else |
| `Outbox.Outbox.SetTick` | managed_components/espressif__mqtt/lib/mqtt_outbox.c:155-163 | changes the tick of the oldest item with the id and nothing else |
| `Outbox.Outbox.DeleteSingleExpired` | managed_components/espressif__mqtt/lib/mqtt_outbox.c:165-182 | removes the oldest expired item and answers its id, or -1 |
| `Outbox.Outbox.DeleteExpired` | managed_components/espressif__mqtt/lib/mqtt_outbox.c:184-200 | one sweep leaves the unexpired items in order and counts the others |
| `Outbox.Outbox.DrainExpired` | managed_components/espressif__mqtt/mqtt_client.c:1604-1616 | deleting single expired items until -1 leaves the same list and size as one sweep |
| `OutboxSpec.SingleExpiredStep` | managed_components/espressif__mqtt/lib/mqtt_outbox.c:165-200 | deleting one expired item does not change what a sweep leaves; with none expired it leaves everything |
| `OutboxSpec.KeepFreshMembers` | managed_components/espressif__mqtt/lib/mqtt_outbox.c:184-200 | the sweep keeps exactly the unexpired items |
| `OutboxSpec.SizeOfRemove` | managed_components/espressif__mqtt/lib/mqtt_outbox.c:92-106 | removing an item lowers the size by its length |
| `Outbox.Outbox.DeleteAll` | managed_components/espressif__mqtt/lib/mqtt_outbox.c:207-216 | empties list and size |
| `ClientPublish.EnqueuePublish` | managed_components/espressif__mqtt/mqtt_client.c:2131-2158 | what is stored for QoS 1, 2 or on request is the whole message even when it does not fit the buffer; a fragment total stays pending exactly if the payload does not fit and the message is not stored |
| `ClientPublish.Enqueue` | managed_components/espressif__mqtt/mqtt_client.c:2276-2316 | answer, item stored and fragment total left, for every outcome |
| `ClientPublish.PendingTotal` | managed_components/espressif__mqtt/mqtt_client.c:2276-2316 | a concrete enqueue without storing after which a PUBREL is not one |
| `ClientPublish.SendFragments` | managed_components/espressif__mqtt/mqtt_client.c:2219-2250 | the fragment loop ends; the bytes written are the packet plus what a stale fragment offset resends, a proper prefix of that exactly if a write took nothing; and it strays outside the payload exactly if the message fits and the offset lies beyond its end |
| `ClientPublish.SentExactly` | managed_components/espressif__mqtt/mqtt_client.c:2219-2250 | the packet alone is written, and nothing but the payload read, exactly if the message is fragmented or the fragment offset on entry does not reach into the payload |
| `ClientPublish.StaleOffset` | managed_components/espressif__mqtt/mqtt_client.c:2149-2155 | storing a long message and sending a short one: of 30 bytes the last 18 go out twice, and with 5 the loop strays |
| `ClientPublish.Publish` | managed_components/espressif__mqtt/mqtt_client.c:2160-2274 | answer, bytes written, item stored and its final state and tick, for every outcome: outbox full, unbuildable, not connected, write failed, strayed, sent |
| `Transport.Connection.WriteAll` | managed_components/espressif__mqtt/mqtt_client.c:727-749 | short writes are resumed; what was written is a prefix, all of it exactly on success, which is when no write took nothing |
| `Framing.SplitConcat` | managed_components/espressif__mqtt/mqtt_client.c:1255-1362 | the splitter undoes concatenation of packets, whatever follows |
| `Framing.ConcatSplit` | managed_components/espressif__mqtt/mqtt_client.c:1255-1362 | the packets split off cover the front of the stream and what is left holds no further packet |
| `Receiver.Receiver.Receive` | managed_components/espressif__mqtt/mqtt_client.c:1255-1362 | one resumable call: when it reports a message the buffer holds exactly the packet, or its first part if it is long, unless resumed in the trap |
| `Receiver.Receiver.Poll` | managed_components/espressif__mqtt/mqtt_client.c:1364-1387 | wherever the stream stands, a packet handed on is the next one of the splitter and otherwise none is, and the buffer holds what was read since the last boundary; a call that hands one on leaves stream and buffer in step exactly if it did not resume in the trap; without a stalled read no call fails and each takes at least a byte |
| `Receiver.Receiver.PollRun` | managed_components/espressif__mqtt/mqtt_client.c:1364-1387 | any number of calls on any stream of whole packets, under any short reads and timeouts, however the run ends: the packets handed on are the first of the splitter's, in order, and the buffer holds the bytes since the last boundary; the run stops before a call that would resume in the trap; without a stalled read it takes a byte a call, and every packet in the end |
| `Receiver.TrapExample` | managed_components/espressif__mqtt/mqtt_client.c:1283-1284 | an acknowledgement with one byte to come, whose next call resumes in the trap |
| `Receiver.SafeIff` | managed_components/espressif__mqtt/mqtt_client.c:1283-1284 | the packets no schedule of short reads can trap the length loop in, exactly |
| `Receiver.AckSafe` | managed_components/espressif__mqtt/mqtt_client.c:1283-1284 | an acknowledgement is safe exactly if a byte of its id is below 128 |
| `Receiver.Receiver.CheckTopic` | managed_components/espressif__mqtt/mqtt_client.c:1306-1335 | a long message is taken in parts exactly if it is a PUBLISH whose checked part fits |
| `Receiver.Receiver.DeliverPublish` | managed_components/espressif__mqtt/mqtt_client.c:1081-1171 | offsets of the data events are contiguous, totals agree, the data is the packet from the delivery start to what was read, all of it exactly on full delivery, which is when no read stalled |
| `Receiver.DeliveryExact` | managed_components/espressif__mqtt/mqtt_client.c:1305-1335 | what is delivered is the payload exactly if fixed header, topic with its length and id fit the buffer |
| `Receiver.DeliveryFails` | managed_components/espressif__mqtt/mqtt_client.c:1326-1334 | a packet that passes the receiver's test and is not delivered: topic of six bytes, buffer of nine |
| `SessionCore.EvolvesTrans` | managed_components/espressif__mqtt/mqtt_client.c:1650-1843 | the relation every step keeps (states forward, fates final, acknowledged messages silent) composes over steps |
| `SessionCore.AddKeeps` | managed_components/espressif__mqtt/mqtt_client.c:1228-1253 | storing a message with a fresh id keeps the invariant |
| `SessionCore.ShrinkKeeps` | managed_components/espressif__mqtt/lib/mqtt_outbox.c:120-200 | removing any items keeps the invariant and the removed ones alone meet their fate |
| `SessionCore.SendKeeps` | managed_components/espressif__mqtt/mqtt_client.c:1557-1576 | writing a stored message, DUP set where due, keeps the invariant |
| `SessionCore.SendMarkKeeps` | managed_components/espressif__mqtt/mqtt_client.c:1747-1766 | writing a queued message whole and marking it transmitted keeps the invariant |
| `SessionProofs.RunKeeps` | managed_components/espressif__mqtt/mqtt_client.c:1650-1843 | every run keeps the invariant and the step relation |
| `SessionProofs.IterateKeeps` | managed_components/espressif__mqtt/mqtt_client.c:1650-1836 | one locked iteration of the task keeps both |
| `SessionProofs.PublishingKeeps` | managed_components/espressif__mqtt/mqtt_client.c:2160-2274 | so does a publish |
| `SessionProofs.AskingKeeps` | managed_components/espressif__mqtt/mqtt_client.c:1976-2102 | so does a subscribe or unsubscribe |
| `SessionRuns.MovesForward` | managed_components/espressif__mqtt/lib/mqtt_outbox.c:78-145 | in every run items only move from queued to transmitted to acknowledged to gone, and what is gone stays gone with its fate |
| `SessionRuns.PubrecAcknowledges` | managed_components/espressif__mqtt/mqtt_client.c:1478-1495 | a PUBREC marks the stored message with its id and is answered by PUBREL |
| `SessionRuns.PubrecSilences` | managed_components/espressif__mqtt/mqtt_client.c:1747-1790 | once acknowledged, a message is never written again and no PUBLISH with its id is while it stays stored, over every future |
| `SessionRuns.DupMarksRetransmissions` | managed_components/espressif__mqtt/mqtt_client.c:1557-1566 | in every run a written QoS 1 or 2 PUBLISH has DUP exactly if an earlier write of it went out whole, and nothing else of it ever changes |
| `SessionRuns.RetryAfterFailedWrite` | managed_components/espressif__mqtt/mqtt_client.c:1747-1766 | a queued message that has been written before, which then failed, is written again just as it was, DUP 0 |
| `SessionRuns.RetryRunWrites` | managed_components/espressif__mqtt/mqtt_client.c:2219-2226 | a concrete run from the start in which one message is written twice with DUP 0 |
| `SessionRuns.Accounting` | managed_components/espressif__mqtt/mqtt_client.c:1217-1226 | in every run each stored message is in the outbox or met one fate, and the ids of the PUBLISHED events are, with their multiplicity, those of the messages settled by PUBACK or PUBCOMP, all of QoS 1 or 2 |
| `SessionReplies.PubackSettles` | managed_components/espressif__mqtt/mqtt_client.c:1463-1477 | a PUBACK, or PUBCOMP, for a stored PUBLISH: just that message leaves the outbox, its fate is published, and the application hears of it once |
| `SessionReplies.SubackSettles` | managed_components/espressif__mqtt/mqtt_client.c:1403-1415 | a SUBACK likewise ends its SUBSCRIBE; without return codes it does so silently and ends the connection |
| `SessionReplies.UnsubackSettles` | managed_components/espressif__mqtt/mqtt_client.c:1416-1425 | an UNSUBACK likewise ends its UNSUBSCRIBE |
| `SessionReplies.StrayReplies` | managed_components/espressif__mqtt/mqtt_client.c:1217-1226 | a reply whose type and identifier match nothing stored changes nothing at all |
| `SessionReplies.PublishAnswered` | managed_components/espressif__mqtt/mqtt_client.c:1426-1462 | a delivered PUBLISH of QoS 1 is answered by one PUBACK, of QoS 2 by one PUBREC, with its identifier, of QoS 0 by nothing; data events in number, error event and outcome in every case |
| `SessionReplies.PubrecAnswered` | managed_components/espressif__mqtt/mqtt_client.c:1478-1495 | a PUBREC marks exactly the messages with its identifier and is answered by PUBREL, stored or not |
| `SessionReplies.PubrelAnswered` | managed_components/espressif__mqtt/mqtt_client.c:1496-1538 | a PUBREL is answered by PUBCOMP with its identifier; a PINGRESP ends the wait for it and nothing else |
| `SessionResend.RoundExactly` | managed_components/espressif__mqtt/mqtt_client.c:1767-1790 | in a round exactly the oldest transmitted message, with DUP if a PUBLISH of QoS 1 or 2, and the PUBREL of the oldest acknowledged one go out, each if and only if older than the retransmission time; nothing changes its state |
| `SessionResend.NothingBetween` | managed_components/espressif__mqtt/mqtt_client.c:1742-1767 | with nothing queued and the retransmission time not over since the last round, or at the first iteration, nothing is written |
| `SessionResend.OldestQueuedFirst` | managed_components/espressif__mqtt/mqtt_client.c:1747-1766 | with messages queued exactly the oldest is written, as stored; dropped if QoS 0, marked if QoS 1 or 2, still queued and disconnected if the write fails |
| `SessionSteps.PubackEnds` | managed_components/espressif__mqtt/mqtt_client.c:1660-1836 | in every run, a message whose PUBACK or PUBCOMP comes in before it expires has left the outbox as published by the end of that iteration, and the application has heard |
| `SessionSteps.IterationResends` | managed_components/espressif__mqtt/mqtt_client.c:1729-1803 | an iteration whose packet gives no reason to stop writes the oldest queued message next, or the oldest overdue one |
| `SessionSteps.ExpiredGo` | managed_components/espressif__mqtt/mqtt_client.c:1660-1664 | in every run no iteration leaves a message behind that was older than the limit when it began |
| `SessionSteps.SweepExactly` | managed_components/espressif__mqtt/mqtt_client.c:1603-1620 | the sweep removes exactly the messages with now - tick above the limit, as timed out, and keeps the others in order |
| `SessionSteps.PublishStores` | managed_components/espressif__mqtt/mqtt_client.c:2160-2274 | a publish of QoS 1 or 2: nothing without room, else stored last with its time, written once if connected, transmitted exactly if the write succeeds, disconnected if it fails |
| `SessionSteps.PublishForgets` | managed_components/espressif__mqtt/mqtt_client.c:2160-2274 | a publish of QoS 0 is written once if connected, never stored, and disconnects if the write fails |
| `SessionSteps.EnqueueStores` | managed_components/espressif__mqtt/mqtt_client.c:2276-2316 | an enqueue stores within the limit, QoS 0 on request only and with id 0, and writes nothing |
| `SessionSteps.AskingStores` | managed_components/espressif__mqtt/mqtt_client.c:1976-2102 | a subscribe or unsubscribe is refused unless connected, else stored as transmitted and written once |
| `SessionSteps.ConnectOutcome` | managed_components/espressif__mqtt/mqtt_client.c:1669-1728 | only an accepted attempt connects, with the keepalive time starting now; a failed one waits for the reconnect time from now; a CONNECT goes out exactly if the transport connected |
| `SessionSteps.ReconnectsExactly` | managed_components/espressif__mqtt/mqtt_client.c:1804-1818 | a waiting session tries again exactly after more than the wait, or on request if it does not reconnect by itself |
| `SessionSteps.ReconnectTakes` | managed_components/espressif__mqtt/mqtt_client.c:1886-1900 | a request to reconnect makes a waiting session try again on the next later tick, and moves no other |
| `SessionSteps.DisconnectsAtOnce` | managed_components/espressif__mqtt/mqtt_client.c:1729-1735 | a request to disconnect sends DISCONNECT and ends the connection before anything is received or sent |
| `SessionSteps.StopsAtOnce` | managed_components/espressif__mqtt/mqtt_client.c:1927-1958 | a stop sends DISCONNECT exactly if running and connected, and ends the task |
| `SessionSteps.EndClears` | managed_components/espressif__mqtt/mqtt_client.c:1838-1840 | when the task ends exactly the messages still stored are accounted for as cleared |
| `SessionLinks.ConnectionsAlternate` | src/mqttclient.cpp:190-254 | in every run without a stop two CONNECTED events have a DISCONNECTED event between them, and the application flag is up only while the client is connected |
| `SessionLinks.StopLeavesFlag` | managed_components/espressif__mqtt/mqtt_client.c:1927-1958 | after a stop the flag stays up exactly if it was up and writing DISCONNECT raised no error event |
| `Session.HasTimedOutExact` | managed_components/espressif__mqtt/mqtt_client.c:693-697 | the unsigned 64-bit comparison is the real one below 2^63 |
| `SessionKeepalive.DropsExactly` | managed_components/espressif__mqtt/mqtt_client.c:699-725 | keepalive gives the connection up exactly if a ping is unanswered for the whole time or one cannot be written after half of it |
| `SessionKeepalive.PingsExactly` | managed_components/espressif__mqtt/mqtt_client.c:699-725 | a PINGREQ goes out exactly when none is awaited and half the keepalive time has passed, and is awaited exactly if written |
| `SessionKeepalive.RefreshesExactly` | managed_components/espressif__mqtt/mqtt_client.c:1796-1801 | the connection is given up for a fresh one exactly when the refresh time is set and over |
| `SessionKeepalive.RefreshEnds` | managed_components/espressif__mqtt/mqtt_client.c:1729-1803 | an iteration with nothing else against the connection ends it exactly when the refresh time has come |
| `SessionKeepalive.SilenceEnds` | managed_components/espressif__mqtt/mqtt_client.c:1792-1794 | in every run with iterations at most d apart a connection silent for keepalive + d is no longer connected |
| `SessionKeepalive.NeverEarly` | managed_components/espressif__mqtt/mqtt_client.c:1729-1803 | in every run with iterations at most d apart, one with nothing else against the connection leaves it connected until keepalive after its CONNECT or last PINGRESP |
| `ClientTask.Client.Do` | managed_components/espressif__mqtt/mqtt_client.c:1650-1843 | every locked region, on the fields and the linked outbox, takes the abstract state to the one the state machine says |
| `ClientTask.Client.Perform` | managed_components/espressif__mqtt/mqtt_client.c:1650-1843 | so does any run of them |
| `ClientTask.Live` | managed_components/espressif__mqtt/mqtt_client.c:1650-1843 | the concrete client after any run from its start: size, fates, published ids and alternating connections are as proved of runs |
| `ClientBytes.Decode` | managed_components/espressif__mqtt/mqtt_client.c:1388-1552 | type, identifier, QoS and topic of a whole packet decide what the session is given; the numbers are in PacketBytes.ReplyBytes |
| `ClientBytes.AckDecodes` | managed_components/espressif__mqtt/mqtt_client.c:1463-1528 | an encoded acknowledgement is decoded as what it is |
| `ClientBytes.Receive` | managed_components/espressif__mqtt/mqtt_client.c:1364-1555 | receiver and client together: a call handles the next packet of the byte stream as the state machine does, or a failure, or nothing |
| `ClientBytes.ReceiveRun` | managed_components/espressif__mqtt/mqtt_client.c:1364-1555 | any number of calls on any stream of whole packets: the client has gone through just the packets of the stream in order, keeps the session's invariant, and without a stalled read goes through all of them |
| `ClientBytes.ProcessedKeeps` | managed_components/espressif__mqtt/mqtt_client.c:1388-1552 | any sequence of packets keeps the session's invariant |
| `ClientTask.Client.Iterate` | managed_components/espressif__mqtt/mqtt_client.c:1660-1836 | one iteration refines the state machine's |
| `ClientTask.Client.ProcessReceive` | managed_components/espressif__mqtt/mqtt_client.c:1364-1555 | handling one packet does to fields and list what the state machine does, which the SessionReplies rows spell out |
| `ClientTask.Client.ResendQueued` | managed_components/espressif__mqtt/mqtt_client.c:1747-1766 | resending a queued message refines it, whatever the write does |
| `ClientTask.Client.Retransmit` | managed_components/espressif__mqtt/mqtt_client.c:1767-1790 | retransmission on fields and list is the state machine's, which SessionResend.RoundExactly spells out |
| `ClientTask.Client.Publish` | managed_components/espressif__mqtt/mqtt_client.c:2160-2274 | a publish refines it |
| `ClientTask.Client.Ask` | managed_components/espressif__mqtt/mqtt_client.c:1976-2102 | a subscribe or unsubscribe refines it |
| `ClientTask.Client.IterateConnected` | managed_components/espressif__mqtt/mqtt_client.c:1729-1803 | an iteration of a connected client refines it: disconnect request, packet, resending, keepalive, refresh |
| `ClientTask.Client.Resend` | managed_components/espressif__mqtt/mqtt_client.c:1742-1790 | choosing between queued messages and due retransmissions refines it |
| `ClientTask.Client.WriteItem` | managed_components/espressif__mqtt/mqtt_client.c:1557-1570 | the stored message goes out, with DUP set in the stored copy exactly where due |
| `ClientTask.Client.DropNode` | managed_components/espressif__mqtt/mqtt_client.c:1752-1757 | the sent QoS 0 message itself leaves the outbox, whatever its id |
| `ClientTask.Client.RemoveInitiator` | managed_components/espressif__mqtt/mqtt_client.c:1217-1226 | the oldest message a reply matches leaves the outbox, or nothing changes |
| `ClientTask.Client.Enqueue` | managed_components/espressif__mqtt/mqtt_client.c:2276-2316 | an enqueue refines it |
| `ClientTask.Client.EndTask` | managed_components/espressif__mqtt/mqtt_client.c:1838-1840 | the end of the task clears the outbox and every message in it is accounted for |
| `Oled.Screen.Pixel` | src/oled.cpp:51-59 | changes the one pixel and no other, and nothing off the screen |
| `Oled.Screen.LitBit` | src/oled.cpp:51-59 | on a screen of 128 by 64 pixel (x, y) is bit y mod 8 of byte x + y / 8 * 128 |
| `Oled.Screen.Line` | src/oled.cpp:61-85 | the loop ends after as many steps as the longer side has pixels to go without 32-bit overflow and lights exactly the on-screen points of the rounded ideal line besides those lit before |
| `Oled.LineEnds` | src/oled.cpp:61-85 | the line starts at the first point and ends at the second |
| `Oled.WithinHalfPixel` | src/oled.cpp:61-85 | the long axis advances by one each step and the other is at most half a pixel off the ideal line |
| `Oled.PointsTouch` | src/oled.cpp:61-85 | consecutive points touch |
| `Oled.StepStaysNear` | src/oled.cpp:71-83 | both comparisons with the running error decide rightly |
| `Oled.SetBit` | src/oled.cpp:54-58 | or and and-not with a shifted bit change that bit alone |
| `Modos.Buttons.UpdateButton` | src/modos.cpp:64-86 | after any history of samples and commands the fields are what the history says |
| `Modos.Buttons.Set` | src/modos.cpp:40-45 | so are they after a command |
| `Modos.SteadyIff` | src/modos.cpp:66-74 | the time kept by the module tells exactly whether the level has held for more than 120 ms |
| `Modos.FlipInRun` | src/modos.cpp:64-86 | on any history the debounced level changes only after more than 120 ms at the other level; and it changes whenever that is so exactly if the age of the run modulo 2^32 is over 120 ms too |
| `Modos.StableInOldRuns` | src/modos.cpp:64-86 | sampled often enough, the debounced level is that of any run older than 120 ms |
| `Modos.FlipIff` | src/modos.cpp:64-86 | in every history with gaps between samples below 2^32 - 120 ms the level changes exactly when the sample is at the other level and that has held for more than 120 ms, however long the button rests |
| `Modos.WrapHidesARun` | src/modos.cpp:74 | the bound is the best: with a gap of exactly 2^32 - 120 ms a press that has lasted is missed |
| `Modos.FlipsFarApart` | src/modos.cpp:64-86 | two changes are more than 120 ms apart |
| `Modos.ModeCountsPresses` | src/modos.cpp:47-86 | without commands since, the mode has advanced by the number of presses modulo three |
| `Modos.ModeByPresses` | src/modos.cpp:47-86 | without commands the mode is Normal, Duo or Mix by the number of presses since boot modulo three |
| `Modos.PressIff` | src/modos.cpp:64-86 | sampled often enough, a press is exactly a low sample while the debounced level is high and low has held for more than 120 ms |
| `Modos.CommandDecides` | src/modos.cpp:40-45 | after the last command the mode is the commanded one advanced by the changes from high to low since |
| `Pump.Control.Iterate` | src/main.cpp:138-183 | after any history of turns counters, flow flags, stop times and relays are what the history says |
| `Pump.Sensor.Update` | src/fluxo.cpp:78-108 | one sensor's update counts pulses modulo 2^32 and records when flow ended |
| `Pump.Control.FluxoUpdate` | src/fluxo.cpp:64-108 | both sensors are updated together, at most once a second |
| `Pump.UpdateSpacing` | src/fluxo.cpp:64-76 | the sensors are looked at in the first turn a second or more after the last time, and never sooner |
| `Pump.Sensor.Pulse` | src/fluxo.cpp:33-41 | the interrupt counts modulo 2^32 |
| `Pump.LatestStop` | src/fluxo.cpp:99-105 | the stop time kept is that of the latest end of flow, or 0 before the first |
| `Pump.DemandIff` | src/main.cpp:29-32 | in runs of any length the program's demand is the real one exactly if flow is seen, has never ended, or ended at a moment from which the 32-bit hold-off still answers rightly |
| `Pump.DemandInFirstRound` | src/main.cpp:29-32 | in a run shorter than 2^32 ms that fails exactly if flow ended in this turn and the later clock reading shows a later millisecond |
| `Pump.DemandMissed` | src/main.cpp:139-142 | a concrete turn in which flow ends, the second clock reading is a millisecond later, and the relay goes off |
| `Pump.RelaysIff` | src/main.cpp:138-183 | in runs of any length with the demand right, the relays do what is meant exactly unless the 32-bit clock has come round to its first three seconds while one is wanted |
| `Pump.RelaysByMode` | src/main.cpp:155-180 | past the inhibit, in runs of any length with the demand right: hot relay exactly on hot demand, or in mode Duo cold; cold relay exactly on cold demand, or in modes Duo and Mix hot |
| `Pump.RelaysFollowDemand` | src/main.cpp:138-183 | in a run shorter than 2^32 ms with agreeing clock readings the relays are off up to 3000 ms; then the hot one is on exactly on hot demand, or in mode Duo cold, and the cold one on cold demand, or in modes Duo and Mix hot; demand is flow seen or ended less than 5000 ms ago |
| `Pump.HoldOffExact` | src/main.cpp:29-32 | 32-bit hold-off against the real one for all pairs of moments, with the exact condition |
| `Pump.ActiveIff` | src/fluxo.cpp:64-108 | flow counts as active exactly above 66 pulses in 100 seconds, the counter wrap not showing |
| `Pump.StopsLate` | src/fluxo.cpp:64-108 | no flow ends in the first second, so the zero sentinel is not met by a real stop time |
| `Pump.InhibitRecurs` | src/main.cpp:155 | each time the 32-bit clock comes round both relays are off for three seconds, flow or no flow |
| `Clock.Minus32Exact` | src/main.cpp:31 | the 32-bit difference is the real one modulo 2^32, and the real one below that |

## Left out

- ClientPublish.SendFragments: what the program copies once it has strayed outside the payload, and what becomes of it.
- ClientPublish.EnqueuePublish: storing a null payload under the fragment total of another message copies from behind the null pointer; that such a call strays is said, and nothing of what it leaves.
- ClientTask.Client.Enqueue: the fragment total that an unstored QoS 0 message leaves pending is not part of the session's state; it is in ClientPublish.Enqueue. Lengths falsified by it count as packets written whole.
- MqttMsg.Connection.Finish: a length of 2^28 or more would overrun the four-byte array before it is noticed; the model takes the failure that is meant.
- Mqtt5Msg.UpdatePropertyLen: the same array bounds property lengths below 2^28.
- Mqtt5Msg.AppendProperty: the variable-length form, whose space check does not count its length bytes, is not modelled.
- Mqtt5Wire.Publish5Reads: reading outside the buffer, and wrap-around of the 16-bit property offset, count as one outcome, Lost, whose effects are not modelled.
- Receiver.Receiver.PollRun: streams of whole packets with at most four length bytes that fit the buffer; buffers of at least nine bytes. Long messages are Receiver.Receiver.DeliverPublish.
- Receiver.Receiver.Poll: nothing is said of a call after one that has handed a packet on from the trap.
- Session.Next: message ids are drawn at random by the program; here nonzero ids are new when drawn, replies that need an id carry a nonzero one, and the clock stands still within one locked region.
- Session.HasTimedOutExact: 64-bit ticks wrap in this comparison only; elsewhere ticks do not wrap.
- SessionRuns.PubrecSilences: says nothing of a later message that is given the same id after the first has left the outbox.
- SessionKeepalive.SilenceEnds: a keepalive time of 0 switches it off, and one of 1 ms makes half of it zero; from 2 ms on.
- ClientBytes.ReceiveRun: messages that fit the input buffer; the events of longer ones are those of Receiver.Receiver.DeliverPublish, and reach the session as a number of parts.
- ClientTask.Client.Do: a publish is one write with one result here; its pieces are in ClientPublish. Acknowledgements always fit the outbound buffer.
- Outbox.Outbox.Enqueue: allocation failure, and an item's buffer as memory that the outbound message also points into.
- Oled.Screen.Line: coordinates beyond 2^28, where the 32-bit arithmetic may overflow.
- Pump.Control.Iterate: floating-point rounding of the flow rate; exact real arithmetic takes its place.
- Pump.DemandIff: a single turn that sees flow end and takes longer than 2^32 - 5000 ms.
- Modos.FlipIff: histories with longer gaps between samples; for those there is Modos.FlipInRun.
- Modos.Buttons.UpdateButton: a command from another task is a step of its own, never inside an update.
- TLS, transports, WiFi, time keeping, storage, I2C and GPIO: reads, writes, clocks and pin levels are inputs.
- Event handlers that call back into the client: each such call is a separate step.
- MQTT 5.0 sessions: flow control, topic aliases, acknowledgement properties and CONNECT of that version.
- Exactly-once delivery of received QoS 2 messages: the client does not keep track of them.
- Starting the task again after it has ended, and destroying the client.
- Configuration, URI parsing, certificates, the custom outbox, fonts and screen layout, telemetry text, logging.
