# FlashMQ: a verified model of its message core

FlashMQ is an MQTT broker. This project models, in Dafny, the parts of it where state, bytes and
threads meet, and proves what those parts are for:

- **QoS sessions** (`QosState`, `QosInvariants`, `QosQueue`, `QosSession`, `QosTwoParty`, `QosDelivery`).
  The publish queue that is a linked list, a map and an expiration index at once; packet ids and the
  flow-control quota; the two QoS 2 id sets; the resend after a reconnect. Classes with the broker's
  fields are proved against functions on a plain state, invariants are proved over every run of events,
  and two sessions are put opposite each other over channels that are emptied on disconnect: nothing is
  delivered twice, and on a connection that lasts every exchange ends and every message gets through.
- **The circular buffer** (`Bits`, `CirBuf`, `ClientWrite`). Masked index arithmetic on an array is a
  first-in, first-out byte sequence; growth keeps the content; a packet within the limits always fits
  in an empty write buffer.
- **Framing** (`WebsocketFrames`, `WebsocketDecoder`, `WebsocketRuns`, `WebsocketEncoder`, `WebsocketWriter`,
  `VariableByteInts`, `MqttSplitter`, `PublishFormat`, `PropertyBuilder`, `PublishRoundTrip`,
  `MqttPackets`). The frame layouts of RFC 6455 section 5.2 and of MQTT 5.0 sections 1.5.5, 2.1.4 and
  3.3 are written down independently of the loops that write and read them; decoding does not depend
  on how bytes arrive, and what is written is read back.
- **Fan-out** (`FanOutBytes`, `FanOut`, `TopicAliases`). One incoming packet and a small cache are
  shared and mutated for all subscribers; each subscriber still reads its own message. Topic aliases
  are shared between sending threads; the receiver still resolves every topic.
- **Access control** (`AclRules`, `AclTree`). The wildcard tree gives the answer of a scan over the
  list of rules.

Code that changes fields step by step is a class whose methods are proved against a function of the
old state; lemmas then say what that function is good for. `QosData` is the state that `QoSData` has
in its fields, `Reading` and `Parsed` are what the parser has found, `Nodes` are the nodes of a tree by
their paths, `Split` is what splitting a byte sequence gives.

## What the proofs found

Each of these is a lemma or an explicit condition of one; the code was kept as it is.

- `Session::writePacket` looks for the client before it has the session's lock (session.cpp:226, 250),
  and a new client is assigned before the counters are reset under the lock (session.cpp:196-198). Two
  races follow, and each exceeds the receive maximum. A sweep meant for off-line clients may come after
  the client has reconnected, and take away a message that was just resent, because the sweep looks at
  the whole second of expiry and the resend at the moment (`LateSweepExceedsReceiveMax`). And a thread
  that sees the new client may queue before the reset and write after it
  (`EarlyWriteExceedsReceiveMax`). `FlowControlHolds` has the bound with such messages counted;
  `FlowSweep` and `ConnectCountsEarly` say exactly when there is something to count.
- `Session::writePacket` lets go of the session's lock between queueing and writing
  (session.cpp:289-304). When the locked section of the resend falls in between, the message goes out
  twice, and if the handshake ends in between it is delivered twice (`CopyBeforeWriteDuplicates`).
- A resend or a sweep that drops a message under way leaves a PUBREC on its way for an id that is free;
  the sender then tracks a handshake for an id that may be issued again, and when the ids have come
  round, its PUBCOMP completes a message that was never forwarded (`DropInFlightLosesMessage`). A
  receiver that refuses the first of two copies under way has the same effect
  (`RefusedCopyLosesMessage`).
- A QoS 1 message that is sent by a publishing thread and again by the resend is acknowledged twice. If
  its id has come round and is issued once more when the second PUBACK arrives, the message under it is
  lost (`EarlyIssueLosesMessage`).
- `QosTwoParty.StepKeepsExactly` has the exact condition on every step of the two sessions.
- When a resend or an expiry drops a message the receiver may go on holding its id, and a refused
  message leaves its id held. A QoS 2 message queued under an id that the receiver still holds is
  acknowledged and not forwarded. `DeliveredAtMostOnce` says so exactly: of the completed messages
  those, and the ones it did not let through, are not delivered, and all others are.
- A ping without payload is not answered when exactly ten bytes are free in the write remainder,
  because the encoder asks for more than ten (iowrapper.cpp:921, 1011-1018); `Pong` has the exact
  condition and `EmptyPingGoesUnanswered` a case.
- `websocketBytesToReadBuffer` cannot trip its guard against spinning with fewer than 2,000,000 bytes
  pending. The check of the multiplier in `bufferToMqttPackets` cannot trip either, because the check of
  the header's length comes first.
- Writer and parser both accept 51 user properties in a PUBLISH: each compares the count before
  counting with 50 (mqtt5properties.cpp:133, types.cpp:237).
- `AclNode::empty` never becomes true, so that skipping empty nodes changes no answer.
- Holding the alias lock until the packet is written is needed: without it a receiver takes one topic
  for another (`WithoutLockTopicsMix`).

## Model

| member | source | states |
|---|---|---|
| `QosState.ClaimIsCyclicallyFirst` | session.cpp:123-148 | for every state with an unused id: an id is refused exactly when the quota is 0 or no id but the last one issued is unused; otherwise the id issued is unused, nonzero, and every id on the way to it from the last one, with wrap-around, is in use |
| `QosState.StepsToFree` | session.cpp:128-143 | the search ends within a full turn of the 16-bit id, at the first usable id |
| `QosState.EraseIdAt` | qospacketqueue.cpp:60-103 | with distinct ids, erasing an id removes exactly the one entry under it and keeps the order of the rest |
| `QosState.KeptSnoc` | session.cpp:363-389 | deciding one more message in order keeps it exactly when it is allowed and fewer than the quota at the start were kept before |
| `QosState.FreeIdsAll` | session.cpp:93-108 | freeing a list of ids gives one quota unit for each, up to the ceiling, whatever their order |
| `QosState.DueByTheSecond` | qospacketqueue.cpp:46-58 | a message is due exactly once the second in which it expires has begun: always when it has expired, and never a second or more before |
| `QosState.QueuedWhen` | session.cpp:253-293 | a message is queued exactly when the topics and payloads in the queue, put one after the other, are shorter than the limit or nothing is queued, there is quota, and some id but the last one issued is unused; then it is last, and otherwise nothing changes |
| `QosQueue.QoSPublishQueue.AddToHeadOfLinkedList` | qospacketqueue.cpp:133-142 | the walk along `next` from tail to head visits one node more, the new one last, and `prev` stays its inverse |
| `QosQueue.QoSPublishQueue.AddToExpirationQueue` | qospacketqueue.cpp:46-58 | a message that can expire gets one entry more, under its moment of expiry less the part of a second, after all entries that are not later and before all that are; the index stays ordered and complete for all queued messages that expire |
| `QosQueue.QoSPublishQueue.QueuePublish` | qospacketqueue.cpp:178-210 | list, map, byte count and index stay in agreement, and the queue is the old one with one entry after all others |
| `QosQueue.QoSPublishQueue.EraseFromMapAndRelinkList` | qospacketqueue.cpp:82-103 | taking one node out anywhere in the list relinks its neighbours so that the walk skips exactly that node |
| `QosQueue.QoSPublishQueue.Erase` | qospacketqueue.cpp:60-74 | reports whether the id was queued, removes its entry and nothing else, and list, map, index and byte sum agree again |
| `QosQueue.QoSPublishQueue.PopExpiration` | qospacketqueue.cpp:222-243 | one index entry goes, and its node too if it is the node now queued under its id: a stale entry never removes a later message that reused the id |
| `QosQueue.QoSPublishQueue.ClearExpiredMessages` | qospacketqueue.cpp:212-246 | for a clock that never goes back, exactly the messages due at one moment between the first and the last reading go, the rest keep their order, and the ids returned are those of the messages gone, each once; in terms of the clock alone, what goes expires less than a second after the last reading, and what stays never expires or does so after the first |
| `QosQueue.LeftIsDropDue` | qospacketqueue.cpp:212-246 | removing nodes one by one by their index entries comes to the same as filtering the queue by what is due |
| `QosQueue.IdsAreKeys` | qospacketqueue.cpp:82-103 | in a queue whose map and list agree the ids are distinct and are the keys of the map |
| `QosSession.QoSData.constructor` | session.h:36-60 | a new session has no ids in use, an empty queue and the configured quota |
| `QosSession.QoSData.IncreaseFlowControlQuota` | session.cpp:32-40 | the id is free again and the quota grows by one, not past the ceiling |
| `QosSession.QoSData.ResetFlowControlCounters` | session.cpp:42-46 | a connect sets quota and ceiling to the receive maximum and changes nothing else |
| `QosSession.QoSData.AdvanceToUnused` | session.cpp:128-143 | the loop ends when some id is unused, at the first unused id after the last one issued, and reports whether it moved |
| `QosSession.QoSData.GetNextPacketId` | session.cpp:123-148 | issues what `Claim` issues, whose meaning is `ClaimIsCyclicallyFirst`, and takes one unit of quota with it |
| `QosSession.QoSData.ClearExpiredMessagesFromQueue` | session.cpp:93-108 | a sweep happens only a second or more after the last one; then exactly the due messages go, those that expire less than a second after its last look at the clock and none that was alive at its first, and each of their ids is free with its quota unit given back; no other id is |
| `QosSession.QoSData.WritePacket` | session.cpp:247-294 | a thread that saw the client off-line sweeps first; then the message is queued last under the id issued, or nothing changes: when the byte limit is reached and the queue not empty, or no id can be issued, as with a quota of 0 |
| `QosSession.SweepFrees` | session.cpp:93-108 | if a sweep leaves any quota there is an id left to claim: there was one before, or the sweep freed it |
| `QosSession.QoSData.ClearQosMessage` | session.cpp:312-334 | the message under the id leaves the queue, the id becomes free only when the handshake ends, and the result says whether it was queued |
| `QosSession.QoSData.AddOutgoingQoS2MessageId` | session.cpp:490-494 | the id is noted as outgoing, and nothing else changes |
| `QosSession.QoSData.HandlePubRec` | mqttpacket.cpp:2376-2395 | both locked sections one after the other: the message leaves the queue; without an error its id stays in use as an outgoing QoS 2 id and a PUBREL tells whether it was known; with an error the id is free |
| `QosSession.QoSData.RemoveOutgoingQoS2MessageId` | session.cpp:496-512 | a PUBCOMP frees the id exactly when its handshake was under way |
| `QosSession.QoSData.HandlePublishQos2` | mqttpacket.cpp:2237-2300 | the id is held afterwards in every case; the message is forwarded exactly when the id was not held before and the ACL allows it; the answer carries an error exactly for a new, refused message over MQTT 5, and not for one that is accepted and dropped |
| `QosSession.QoSData.HandlePubRel` | mqttpacket.cpp:2411-2424 | the id is no longer held, and the PUBCOMP says whether it was |
| `QosSession.QoSData.CopyAllPendingQosData` | session.cpp:360-395 | the loop that erases while it walks leaves in the queue, in order, exactly what it copied: the first messages that are unexpired and allowed, up to the quota at its start; the ids of all others are free |
| `QosSession.QoSData.DecideAll` | session.cpp:361-389 | every message queued at the start is decided once, in order, although nodes are erased under the walk |
| `QosSession.QoSData.DecideMessage` | session.cpp:363-389 | one round of it: the message is kept and counted, or it is gone from list, map, index and used ids |
| `QosInvariants.AccountedStep` | session.cpp:32-512 | no event breaks: used ids are the disjoint union of the queued ones and those past PUBREC, ids are distinct and nonzero, and the quota lies between 0 and the ceiling; the sweep may come at any time, and other threads between the two locked sections of a PUBREC |
| `QosInvariants.PubRecKeepsAccount` | mqttpacket.cpp:2376-2395 | a PUBREC without error keeps that account if and only if its id is in use |
| `QosInvariants.UsedIdsAreQueuedOrReleased` | session.cpp:32-512 | in every reachable state of a fresh session whose peer acknowledges what was sent, the used ids are the queued ones, the outgoing ones and those whose PUBREC is half handled, and these are disjoint |
| `QosInvariants.IssuedIdIsUnheld` | session.cpp:123-148 | in every reachable state the id issued next is not queued, not outgoing and not in a PUBREC being handled |
| `QosInvariants.FlowControlHolds` | session.cpp:32-198 | with publishing threads and late sweeps before, between and after assigning the client, resetting the counters and resending: quota, plus the ids sent and unacknowledged, plus those queued and not sent, never exceeds the receive maximum plus the completed exchanges from before, plus the swept messages that were sent or not yet counted, plus the messages queued for the client before the reset and not resent; quota and ceiling stay in range |
| `QosInvariants.FlowSweep` | session.cpp:93-108 | short of the ceiling, a sweep leaves that sum unchanged if and only if everything it drops was queued on this connection and not sent |
| `QosInvariants.ConnectCountsEarly` | session.cpp:179-198 | after a reset of the counters that sum is within the receive maximum if and only if nothing was queued before it to be sent on the new connection |
| `QosInvariants.LateSweepExceedsReceiveMax` | session.cpp:247-257 | a run from a fresh session in which a message in its last second is resent and then swept ends with receive maximum 1, one message under way and a quota of 1 |
| `QosInvariants.EarlyWriteExceedsReceiveMax` | session.cpp:179-304 | a run from a fresh session in which a thread sees the new client and queues before the counters are reset ends with receive maximum 1, one message under way and a quota of 1 |
| `QosInvariants.BalancedStep` | session.cpp:32-148 | quota plus number of used ids stays equal to the receive maximum over every event but a separate connect or resend |
| `QosInvariants.QuotaBalancesUsedIds` | session.cpp:110-148 | with connect and resend as one step and no handshake carried over, quota plus used ids equals the receive maximum in every reachable state, and while there is quota there is an unused id |
| `QosTwoParty.StepKeeps` | session.cpp:179-512 | for messages of QoS 1 and 2 together: every possible, sound step of sender, receiver, publishing and sweeping threads and network keeps the two-party invariant |
| `QosTwoParty.StepKeepsExactly` | session.cpp:179-512 | and a step keeps it only if it is sound: no id issued while a QoS 1 packet about it is under way or about to be written, no resend between the queueing and the write of a QoS 2 message or while a refusal is under way, no drop of a QoS 2 message under way or about to be written, no refusal that a copy follows |
| `QosTwoParty.RunKeeps` | session.cpp:179-512 | so does every run of them, with any disconnects, reconnects, resends, sweeps and refusals |
| `QosTwoParty.DeliveredAtMostOnce` | mqttpacket.cpp:2237-2443 | no message is forwarded twice; of the messages whose handshake is complete exactly those are not forwarded that the receiver did not let through or that were queued under an id it still held |
| `QosTwoParty.DeliveredExactlyOnce` | mqttpacket.cpp:2237-2443 | in runs without drops and refusals every completed message was forwarded exactly once and no free id is held by the receiver, so that a reused id is never taken for a duplicate (section 4.3.3 of MQTT 5.0) |
| `QosTwoParty.FreedIdIsNotHeld` | session.cpp:496-512 | when a PUBCOMP is about to free an id, the receiver does not hold it |
| `QosTwoParty.DeliveredAtLeastOnce` | session.cpp:209-512 | in such runs every acknowledged QoS 1 message was forwarded or refused, and every message of either QoS is queued or in its handshake still, or its exchange is over, or it was dropped (sections 4.3.2 and 4.4 of MQTT 5.0); that the next connection ends those exchanges is `QosDelivery.FinishesAfterReconnect` |
| `QosTwoParty.CopyBeforeWriteDuplicates` | session.cpp:289-304 | a run from a fresh session in which the resend falls between queueing and writing ends with the message forwarded twice |
| `QosTwoParty.IdsComeRound` | session.cpp:123-148 | on an idle link, messages that are queued and swept lead soundly to a state in which any given id is the next one issued |
| `QosTwoParty.LostAccountLosesMessage` | session.cpp:496-512 | on a link with nothing else in use, a PUBCOMP for any id that is free but noted as outgoing leads soundly to a message counted as complete that was neither forwarded nor refused nor queued under a held id |
| `QosTwoParty.DropInFlightLosesMessage` | session.cpp:363-389 | a run from a fresh session, sound but for a resend that drops a message under way, ends that way |
| `QosTwoParty.RefusedCopyLosesMessage` | mqttpacket.cpp:2244-2300 | so does one that is sound but for the refusal of the first of two copies |
| `QosTwoParty.EarlyIssueLosesMessage` | mqttpacket.cpp:2327-2331 | a run from a fresh session, sound but for its last issue of an id, in which a QoS 1 message is sent twice and the second PUBACK acknowledges a message that was never sent |
| `QosDelivery.ResendWritesAll` | session.cpp:360-420 | after its locked section the list that the resend writes has one PUBLISH for each queued message, in queue order, with its id, its message and its QoS, and then a PUBREL for each outgoing id, exactly once, and nothing else |
| `QosDelivery.MoveIsProgress` | session.cpp:312-512 | every step in which the receiver takes a packet and forwards it, or the sender takes a reply or writes a PUBREL, leaves less to do, drops nothing, and lets no exchange go out of sight |
| `QosDelivery.MovesEnd` | session.cpp:312-512 | so any run of such steps, in any order, is bounded by the work there was at its start |
| `QosDelivery.QuietIsOver` | session.cpp:312-512 | and when none of them is possible any more, no id is in use for whose exchange a packet or a reply was under way |
| `QosDelivery.WrittenIsOver` | session.cpp:289-304 | a message written on a connection that lasts: however things go on, its id is free when all is quiet, and it is completed or acknowledged, if it was not refused or dropped before |
| `QosDelivery.FinishesFromWindow` | session.cpp:350-420 | from any state between connect and resend that keeps the invariant, whatever the resend decides, a sound run leads to one in which no id is in use, none is outgoing and nothing is queued or under way; dropped is only what the resend decided against |
| `QosDelivery.FinishesAfterReconnect` | session.cpp:350-420 | from any state off-line that keeps the invariant, a connection with a receive maximum that holds what is queued, on which the resend keeps all and the receiver refuses nothing, leads soundly to one in which every message ever queued was forwarded, unless it was stale, refused or dropped before, and no id is in use |
| `CirBufs.MaskedIs` | cirbuf.cpp:46-103 | for a power-of-two size, masking a 32-bit sum or difference of positions is reduction modulo the size, also below zero |
| `CirBufs.CirBuf.constructor` | cirbuf.cpp:22-38 | a new buffer has the given power-of-two capacity and no content; from then on, over every sequence of calls, the content is exactly the bytes written and not yet taken, in order |
| `CirBufs.CirBuf.UsedBytes` | cirbuf.cpp:46-50 | the masked difference of head and tail is the length of the content |
| `CirBufs.CirBuf.FreeSpace` | cirbuf.cpp:52-56 | one place always stays free: free space is capacity less one less the content |
| `CirBufs.CirBuf.MaxWriteSize` | cirbuf.cpp:58-64 | the piece from head on never runs past the end of the array nor the free space, and takes one of them up whole |
| `CirBufs.CirBuf.MaxReadSize` | cirbuf.cpp:66-72 | the same for the content from tail on |
| `CirBufs.CirBuf.AdvanceHead` | cirbuf.cpp:84-93 | the bytes after head join the content, in order across the seam, or nothing happens when there is no room |
| `CirBufs.CirBuf.AdvanceTail` | cirbuf.cpp:95-103 | exactly the n oldest bytes go, or none when there are fewer |
| `CirBufs.CirBuf.PeakAhead` | cirbuf.cpp:105-114 | the byte at an offset from tail is the byte at that place of the content, wrapped or not |
| `CirBufs.CirBuf.PeekPiece` | cirbuf.cpp:66-82 | what a caller sees through tailPtr and maxReadSize is a prefix of the content, and not an empty one unless there is none |
| `CirBufs.CirBuf.EnsureFreeSpace` | cirbuf.cpp:116-131 | ends with room enough or a capacity of at least the maximum, without changing the content; refused growth changes nothing |
| `CirBufs.CirBuf.DoubleCapacity` | cirbuf.cpp:133-175 | relocation keeps the content, wrapped or not, and the capacity is the doubled one, below 2^31 |
| `CirBufs.CirBuf.Reallocate` | cirbuf.cpp:147-175 | in the larger array the content lies in one piece from the old tail on |
| `CirBufs.GrowStops` | cirbuf.cpp:116-131 | growth stops with room enough or at the maximum, and a grown capacity is below twice the maximum and below twice what is needed |
| `CirBufs.CirBuf.WriteRange` | cirbuf.h:72-90 | the whole range is appended, in at most two pieces, or nothing when the buffer cannot grow enough |
| `CirBufs.CirBuf.ReadToVector` | cirbuf.cpp:272-295 | the oldest bytes, as many as asked for or there are, in order, in at most two pieces; the rest stays |
| `CirBufs.CirBuf.PeekAllToVector` | cirbuf.cpp:264-270 | all the content, and reading it takes nothing away |
| `CirBufs.CirBuf.Reset` | cirbuf.cpp:217-225 | the content is gone; what was written and not read counts as dropped |
| `CirBufs.CirBuf.ResetCapacityIfEligible` | cirbuf.cpp:182-215 | content and history never change; only an empty buffer that was primed gets another array |
| `ClientWrite.EmptyBufferFits` | client.cpp:393-416 | whatever the limits, growth for a packet gives an empty buffer room for it |
| `ClientWrite.WriteBuf.WriteMqttPacket` | client.cpp:387-432 | a packet goes in whole, after what was there, or not at all; each of the three reasons for refusal holds exactly when its condition does: over the peer's limit, no room for a QoS 0 publish, a growth beyond what a buffer can be; a QoS 0 publish is never refused as BufferFull by an empty buffer |
| `WebsocketFrames.MaskSplit` | iowrapper.cpp:59-62 | masking in two parts, the second with the key index moved on, is masking at once |
| `WebsocketFrames.MaskTwice` | iowrapper.cpp:879-896 | unmasking undoes masking (section 5.3 of RFC 6455) |
| `Bits.XorAt` | iowrapper.cpp:897-925 | a bit of a masked byte is set exactly when byte and key differ in it |
| `WebsocketDecoder.StepConsumes` | iowrapper.cpp:803-991 | an iteration after which the loop goes on uses up a pending byte, two if it began a frame, and never writes more than there is room for |
| `WebsocketDecoder.WebsocketReader.DecodeHeader` | iowrapper.cpp:808-877 | the header is taken exactly when all of it is there and no reserved bit is set; otherwise nothing changes |
| `WebsocketDecoder.WebsocketReader.BinaryInto` | iowrapper.cpp:879-896 | the caller's buffer gets the unmasked bytes in place and nothing else in it changes |
| `WebsocketDecoder.WebsocketReader.TakeControlPayload` | iowrapper.cpp:897-942 | the payload handed on is unmasked, with the key from its first byte on |
| `WebsocketDecoder.WebsocketReader.HandleFrame` | iowrapper.cpp:879-991 | the branches by opcode, with the state reset when the frame is done, change the caller's buffer only where output was produced |
| `WebsocketDecoder.WebsocketReader.WebsocketBytesToReadBuffer` | iowrapper.cpp:788-995 | the whole loop puts its output into the first bytes of the buffer and nowhere else; the spin guard trips only with 2,000,000 bytes pending |
| `WebsocketRuns.ParseFrame` | iowrapper.cpp:808-877 | a valid header followed by anything is recognised when its last byte is there and not before |
| `WebsocketRuns.ReadProduces` | iowrapper.cpp:788-995 | a call that returns with room left and nothing still to arrive has decoded everything pending |
| `WebsocketRuns.DecodingIgnoresChunking` | iowrapper.cpp:788-995 | for any stream of valid binary, ping and pong frames, any arrivals and any sequence of requests: output and pongs are prefixes of the payloads and of the pings, without error, and complete once all arrived and a request is not filled up |
| `WebsocketRuns.ReservedBitEndsReading` | iowrapper.cpp:808-846 | a reserved bit is an error as soon as two bytes of a header are there, and nothing is taken |
| `WebsocketRuns.RunEnds` | iowrapper.cpp:788-986 | after any valid frames, arrived in any pieces: a close frame ends the reading as disconnected and what is pending is dropped, and a frame of an opcode other than 2, 8, 9 and 10, or a control frame over the limit, is an error; the payloads of the valid frames are handed on and their pings ponged before |
| `WebsocketEncoder.Header` | iowrapper.cpp:1020-1049 | the header is the one of section 5.2 of RFC 6455, with the shortest length form, across the borders at 126 and 65535 |
| `WebsocketEncoder.WriteAsMuchOfBufAsWebsocketFrame` | iowrapper.cpp:1003-1056 | it fails exactly when the buffer cannot grow; the count returned says which prefix was framed, header and body fit in the free space, and the bytes appended are that one frame |
| `WebsocketEncoder.WriteFrame` | iowrapper.cpp:1020-1052 | with room for payload and header, exactly one frame around the payload is appended |
| `WebsocketEncoder.Pong` | iowrapper.cpp:921-922 | the pong carries the whole payload of the ping; it is left out exactly when the payload is empty and ten bytes are free |
| `WebsocketEncoder.FrameOfIsFrameBytes` | iowrapper.cpp:1020-1052 | the bytes the encoder appends, for data and for pongs, are the wire form of a frame that is valid for any reader with a large enough limit |
| `WebsocketEncoder.FirstBytesSent` | iowrapper.cpp:1034-1036 | on the wire, data begins with 0x82 and a pong with 0x8A |
| `WebsocketWriter.Writer.constructor` | iowrapper.cpp:69-77 | a writer on which nothing has been sent; from then on, over every run of its calls, what the socket took and what waits are whole frames around exactly the MQTT bytes taken, and the pongs are the pings to answer, in order, but for empty ones |
| `WebsocketWriter.Writer.Offer` | iowrapper.cpp:1086-1087 | exactly the prefix of the returned length is taken, and it is not empty when nothing waits |
| `WebsocketWriter.Writer.Drain` | iowrapper.cpp:1089-1097 | whatever the socket takes, in any pieces, no byte is lost between the buffer and the wire, and exactly so many go out as the socket takes of the piece it is offered, turn by turn, until it takes none |
| `WebsocketWriter.Writer.WriteWebsocketAndOrSsl` | iowrapper.cpp:1076-1101 | both together: the returned count is what was taken, what is on the wire is a prefix of its frames, and with a socket that takes what it is offered nothing waits afterwards |
| `WebsocketWriter.Writer.WriteBufIntoFd` | client.cpp:556-579 | when the unframed rest is offered again, over any rounds, the bytes taken and the bytes left in the client buffer are always the same sequence: none is lost or framed twice; with a socket that takes what it is offered, one round for each byte and one more send everything |
| `WebsocketWriter.Writer.Round` | client.cpp:568-579 | one round frames a prefix of what the client buffer holds, takes just that out of it, and the prefix is not empty when nothing waits |
| `WebsocketWriter.FlowsOut` | iowrapper.cpp:1089-1097 | a socket that takes something gets at least that going of the first piece, and one that takes all it is offered, twice, everything |
| `WebsocketWriter.Writer.Answer` | iowrapper.cpp:914-925 | a pong with a payload is written whole; only an empty one can be left out |
| `WebsocketWriter.Writer.AnswerAll` | iowrapper.cpp:897-926 | all pings of a call, in order, and nothing else changes in what was taken or sent |
| `WebsocketWriter.ReadAndAnswer` | iowrapper.cpp:788-995 | a call of the decoder with its pongs: they are answered in order in the write buffer, and MQTT bytes taken for framing are not affected |
| `WebsocketWriter.PongsFit` | iowrapper.cpp:897-925 | the decoder asks for no pong above its limit, and its pongs take at most eleven bytes for each byte that was pending |
| `WebsocketWriter.EmptyPingGoesUnanswered` | iowrapper.cpp:921-922 | an empty ping that is answered into a buffer of sixteen in which five bytes wait leaves the buffer as it is, without error |
| `WebsocketWriter.EncodeThenDecode` | iowrapper.cpp:788-1101 | decoding what such a writer has sent, arriving and asked for in any pieces, gives a prefix of the MQTT bytes taken, and all of them in the end, pongs in between or not |
| `VariableByteInts.Assign` | variablebyteint.cpp:28-46 | the loop writes the encoding of section 1.5.5 of MQTT 5.0, and refuses exactly the numbers too large for four bytes |
| `VariableByteInts.DecodeStable` | mqttpacket.cpp:526-552 | what was recognised stays recognised when more bytes arrive |
| `VariableByteInts.DecodeEncoded` | variablebyteint.cpp:28-46 | an encoded number is decoded again in place, with its length, whatever follows |
| `VariableByteInts.RoundTrip` | variablebyteint.cpp:28-46 | every number up to 268435455 survives encoding in at most four bytes |
| `VariableByteInts.EncodedBorders` | variablebyteint.cpp:28-46 | the smallest and the largest number of each length are encoded as the table of section 1.5.5 of MQTT 5.0 has them |
| `MqttSplitter.RemainingLength` | mqttpacket.cpp:526-552 | the loop over the circular buffer decodes the length field of section 2.1.4 of MQTT 5.0 |
| `MqttSplitter.Recognise` | mqttpacket.cpp:516-565 | the checks of one round classify the front of the buffer by its bytes alone: wait, error, or a packet of a given size |
| `MqttSplitter.BufferToMqttPackets` | mqttpacket.cpp:511-573 | packets, leftover bytes and error are those of splitting the content, and every packet handed on has a first byte that its version allows and is within the limits |
| `MqttSplitter.OnePacket` | mqttpacket.cpp:511-573 | what becomes of a packet at the front, whatever follows, by first byte, size and version: ProbablyNotMqtt from 1 MiB on before authentication, PacketTooLarge over the limits, otherwise handed on exactly when its first byte is allowed; else a bad client before the version is known, an invalid type, or malformed flags |
| `MqttSplitter.ComplainsByFirstByte` | mqttpacket.cpp:66-77 | from MQTT 3.1.1 on the first bytes allowed are 0x10, 0x20, 0x30 to 0x3F, 0x40, 0x50, 0x62, 0x70, 0x82, 0x90, 0xA2, 0xB0, 0xC0, 0xD0, 0xE0, and 0xF0 from MQTT 5 on (section 2.1.3 of MQTT 5.0); before, all types from 1 to 14 with any flags; each other byte has its error |
| `MqttSplitter.ValidateFirstByteLSB` | mqttpacket.cpp:2529-2570 | the switch over the types accepts exactly the flags the specification of the splitter names |
| `MqttSplitter.RefusedEarly` | mqttpacket.cpp:526-563 | a packet over the limits is refused once its length is known, whether the rest of it has arrived or not |
| `MqttSplitter.SplitConserves` | mqttpacket.cpp:511-573 | without an error, packets and leftover concatenate to the input |
| `MqttSplitter.NextStable` | mqttpacket.cpp:516-565 | a front that was recognised stays as it was when more bytes arrive |
| `MqttSplitter.SplitInTwo` | mqttpacket.cpp:511-573 | splitting a stream at once is splitting its first part and going on with the leftover |
| `MqttSplitter.SplittingIgnoresChunking` | mqttpacket.cpp:511-573 | any way to cut a stream into arrivals gives the same packets, leftover and error |
| `MqttSplitter.SplitUndoesConcat` | mqttpacket.cpp:511-573 | concatenated packets come apart at the same places |
| `PublishRoundTrip.VarIntReadsBack` | mqttpacket.cpp:2780-2799 | a variable byte integer that was written is read back, and what follows is left |
| `PublishRoundTrip.StrWasWritten` | mqttpacket.cpp:2801-2822 | reading a string succeeds if and only if the bytes begin with one as it is written, within the limit and past its UTF-8 check, and gives that one |
| `PublishRoundTrip.PropertyReadsBack` | mqtt5properties.cpp:88-268 | a written property is read back, whatever follows, with the effect or the error that its kind has on what was read before |
| `PublishRoundTrip.PropertiesReadBack` | mqttpacket.cpp:2034-2149 | so is any list of them, also one with repetitions, which fails at the same property |
| `PublishRoundTrip.AnyOrderReadsBack` | mqttpacket.cpp:2000-2162 | with the properties in any order, single-valued ones at most once, the packet is read as the message they describe |
| `PublishRoundTrip.BuilderDescribes` | types.cpp:258-287 | the list that the builder writes says everything about the message, once, and nothing else |
| `PublishRoundTrip.FrameSplits` | mqttpacket.cpp:2883-2899 | the splitter finds the packet behind its fixed header, whatever follows it |
| `PublishRoundTrip.FrameParses` | mqttpacket.cpp:47-74 | the parser starts right after the fixed header that was written |
| `PublishRoundTrip.BodyReadsBack` | mqttpacket.cpp:156-234 | the body written for a message within the reader's limits is parsed as that message |
| `PublishRoundTrip.PublishSurvives` | mqttpacket.cpp:156-234 | building, writing, splitting and parsing gives back topic, payload, QoS, id, retain flag and all properties, and the aliases the packet sets |
| `PublishFormat.IdentifiersWritten` | types.h:57-82 | each property begins with its identifier of section 2.2.2.2 of MQTT 5.0, given as a number |
| `PublishFormat.PacketWritten` | mqttpacket.cpp:156-234 | a retained QoS 1 publish with an expiry, byte by byte as section 3.3 of MQTT 5.0 has it: 0x33, length, topic, id, properties, payload |
| `PublishFormat.OldPacketWritten` | mqttpacket.cpp:156-234 | the same for MQTT 3.1.1, without properties |
| `PublishRoundTrip.FlagsRefused` | mqttpacket.cpp:2006-2014 | the first bytes of a PUBLISH with QoS 3, or of a duplicate with QoS 0, are refused whatever follows |
| `PublishRoundTrip.ZeroIdRefused` | mqttpacket.cpp:2023-2032 | a packet id of 0 is refused |
| `PublishRoundTrip.EmptyTopicRefused` | mqttpacket.cpp:2151-2152 | before MQTT 5 an empty topic is refused |
| `PropertyBuilders.Mqtt5PropertyBuilder.WriteUint32` | mqtt5properties.cpp:164-180 | the property's identifier and the number, most significant byte first, are appended |
| `PropertyBuilders.Mqtt5PropertyBuilder.WriteUint16` | mqtt5properties.cpp:182-194 | the same for two bytes |
| `PropertyBuilders.Mqtt5PropertyBuilder.WriteUint8` | mqtt5properties.cpp:196-204 | the same for one byte |
| `PropertyBuilders.Mqtt5PropertyBuilder.WriteStr` | mqtt5properties.cpp:206-225 | a string of up to 65535 bytes is appended behind its length; a longer one is refused |
| `PropertyBuilders.Mqtt5PropertyBuilder.Write2Str` | mqtt5properties.cpp:227-255 | the same for a pair of strings |
| `PropertyBuilders.Mqtt5PropertyBuilder.WriteVariableByteInt` | mqtt5properties.cpp:257-268 | the encoded number is appended; one above four bytes is refused |
| `PropertyBuilders.Mqtt5PropertyBuilder.WriteMessageExpiryInterval` | mqtt5properties.cpp:113-116 | appends the bytes that the reader reads back as this property |
| `PropertyBuilders.Mqtt5PropertyBuilder.WriteCorrelationData` | mqtt5properties.cpp:139-142 | the same for correlation data |
| `PropertyBuilders.Mqtt5PropertyBuilder.WriteResponseTopic` | mqtt5properties.cpp:118-121 | the same for the response topic |
| `PropertyBuilders.Mqtt5PropertyBuilder.WriteContentType` | mqtt5properties.cpp:103-106 | the same for the content type |
| `PropertyBuilders.Mqtt5PropertyBuilder.WritePayloadFormatIndicator` | mqtt5properties.cpp:108-111 | the same for the payload format |
| `PropertyBuilders.Mqtt5PropertyBuilder.WriteTopicAlias` | mqtt5properties.cpp:144-147 | the same for the topic alias |
| `PropertyBuilders.Mqtt5PropertyBuilder.WriteSubscriptionIdentifier` | mqtt5properties.cpp:88-91 | the same for the subscription identifier |
| `PropertyBuilders.Mqtt5PropertyBuilder.WriteUserProperty` | mqtt5properties.cpp:131-137 | the same for a user property, of which the 52nd is refused |
| `PropertyBuilders.Mqtt5PropertyBuilder.WriteUserProperties` | mqtt5properties.cpp:123-129 | all user properties in order, or the first error, also after others were written |
| `PropertyBuilders.Mqtt5PropertyBuilder.WriteAll` | types.cpp:258-287 | the bytes of the message's property list, or the error of the first property that cannot be written |
| `MqttPackets.Client.SetTopicAlias` | client.cpp:686-700 | an alias above the limit or 0 is refused; the others stand for the new topic from then on, and an empty topic changes nothing |
| `MqttPackets.Client.GetTopicAlias` | client.cpp:702-710 | the topic of a known alias, an error for an unknown one |
| `MqttPackets.MqttPacket.ReadBytes` | mqttpacket.cpp:2680-2688 | reading past the end is refused; otherwise the cursor moves over exactly what was read |
| `MqttPackets.MqttPacket.ReadByte` | mqttpacket.cpp:2690-2697 | the same for one byte |
| `MqttPackets.MqttPacket.ReadTwoBytesToUInt16` | mqttpacket.cpp:2749-2759 | the same for two bytes, most significant first |
| `MqttPackets.MqttPacket.ReadFourBytesToUint32` | mqttpacket.cpp:2761-2772 | the same for four |
| `MqttPackets.MqttPacket.DecodeVariableByteIntAtPos` | mqttpacket.cpp:2780-2799 | the loop at the cursor decodes what the splitter's loop would, and refuses the same bytes |
| `MqttPackets.MqttPacket.ReadBytesToString` | mqttpacket.cpp:2801-2822 | length limit before content, then the UTF-8 check, as the format's reader does it |
| `MqttPackets.MqttPacket.ReadAliasProperty` | mqttpacket.cpp:2060-2091 | an alias with a topic is set, one without takes the topic set before, with the same errors, and the packet's bytes are marked as not to be reused |
| `MqttPackets.MqttPacket.ReadOneProperty` | mqttpacket.cpp:2034-2149 | one round of the property loop reads one property, or stops with its error; flags and payload are left alone |
| `MqttPackets.MqttPacket.ReadPropertyLoop` | mqttpacket.cpp:2034-2149 | the loop ends where the declared length says, whatever was read |
| `MqttPackets.MqttPacket.ParsePublishData` | mqttpacket.cpp:2000-2162 | finds in the bytes what the format's parser finds, throws where it fails, and remembers where packet id and payload are |
| `MqttPackets.MqttPacket.Incoming` | mqttpacket.cpp:47-74 | a packet from the buffer is ready to be parsed |
| `MqttPackets.MqttPacket.Write` | mqttpacket.h:72-80 | bytes are put at the cursor and nowhere else, and never past the end |
| `MqttPackets.MqttPacket.WriteByte` | mqttpacket.cpp:2705-2711 | the same for one byte |
| `MqttPackets.MqttPacket.WriteUint16` | mqttpacket.cpp:2713-2723 | the same for two bytes |
| `MqttPackets.MqttPacket.WriteString` | mqttpacket.cpp:2737-2741 | the same for a string behind its length |
| `MqttPackets.MqttPacket.WriteProperties` | mqttpacket.cpp:2725-2730 | the same for properties behind their length |
| `MqttPackets.MqttPacket.WritePublish` | mqttpacket.cpp:215-234 | the writes fill the bytes exactly and in the layout of section 3.3 of MQTT 5.0, and the id's place is remembered |
| `MqttPackets.Allocate` | mqttpacket.cpp:197-213 | the length computed before writing is the length of what is written |
| `MqttPackets.Build` | mqttpacket.cpp:156-234 | the constructor gives a packet with the body of the message as overridden, or the first error; computed length and writes agree; topic, QoS, alias and subscription identifier are the ones given for the receiver, and without a topic of its own it has the message's |
| `MqttPackets.MqttPacket.SetPacketId` | mqttpacket.cpp:2569-2579 | only the two bytes of the id change |
| `MqttPackets.MqttPacket.SetQos` | mqttpacket.cpp:2648-2663 | only the two QoS bits change, in the bytes too if the packet has a header of its own |
| `MqttPackets.MqttPacket.SetRetain` | mqttpacket.cpp:2854-2864 | the same for the retain bit |
| `MqttPackets.MqttPacket.ClearDuplicate` | mqttpacket.cpp:2284-2286 | the same for the duplicate bit |
| `MqttPackets.MqttPacket.GetPublishData` | mqttpacket.cpp:2866-2872 | the payload is cut out of the bytes on first use and remembered |
| `MqttPackets.MqttPacket.ReadIntoBuf` | mqttpacket.cpp:2883-2899 | a packet without a header of its own gets one in front; one that has it goes out as it is |
| `FanOutBytes.ParsedInLimits` | mqttpacket.cpp:2000-2162 | a packet whose bytes may be reused parses to a message within its reader's limits, without alias or subscription identifier |
| `FanOutBytes.ParsePatched` | mqttpacket.cpp:2569-2663 | bytes with another id and other flags parse as the same message with that id and those flags |
| `FanOutBytes.ParseForOther` | mqttpacket.cpp:2000-2162 | a packet whose bytes may be reused is parsed alike by anyone within whose limits its message is, with other string limits, UTF-8 check and aliases |
| `FanOutBytes.PatchedReads` | mqttpacket.cpp:2569-2663 | the whole packet with another id and other flags is read as its message with those, by a subscriber of any version with the same layout, with limits and aliases of its own |
| `FanOutBytes.DuplicateIgnored` | mqttpacket.cpp:2006-2014 | the duplicate bit makes no difference to what is parsed |
| `FanOutBytes.ClearedIncoming` | mqttpacket.cpp:2284-2286 | clearing the duplicate bit leaves a packet that holds what was parsed |
| `FanOut.SameKeySameLayout` | publishcopyfactory.cpp:218-240 | packets with the same compare key agree on having properties and on having a packet id |
| `FanOut.HandlePublish` | mqttpacket.cpp:2164-2290 | parsing and making the factory gives one for the parsed message, with the incoming packet fit to be shared |
| `FanOut.PublishCopyFactory.FromPublish` | publishcopyfactory.cpp:27-33 | a factory for a stored or queued message, also one with a subscription identifier, which the subscriber's replaces |
| `FanOut.PublishCopyFactory.FromPacket` | publishcopyfactory.cpp:19-25 | a factory for a parsed packet, whose original bytes it remembers |
| `FanOut.PublishCopyFactory.GetOptimumPacket` | publishcopyfactory.cpp:35-84 | the incoming packet is handed out only to subscribers with its layout and nothing of their own; everyone else gets a packet that needs only id and flags, from the cache only if it has nothing of its own |
| `FanOut.SendTemplate` | client.cpp:484-494 | setting id, QoS and retain on a shared packet gives the packet for that publish and leaves it fit for the next |
| `FanOut.SendIncoming` | client.cpp:484-494 | the same on the incoming packet: original bytes but for id and flags, whoever was served before |
| `FanOut.PublishCopyFactory.SendTo` | client.cpp:478-494 | what is written is the packet made for this subscriber alone, or the incoming bytes with its id and flags, and how either is read is `EachReadsItsOwn`; nothing is written only if a packet of its own cannot be built |
| `FanOut.PublishCopyFactory.SendToAll` | client.cpp:478-494 | the same for every one of any sequence of subscribers through the same mutated packets |
| `FanOut.AloneReads` | mqttpacket.cpp:156-234 | a packet made for the subscriber alone is read, field by field, with its topic (the one given for it, or the original one), also under an alias with or without the topic, the lesser of original QoS and the allowed one, its retain flag, packet id and subscription identifier, and the original payload and properties, by any reader that can take these |
| `FanOut.CanReadInLimits` | mqttpacket.cpp:2000-2162 | which readers those are: texts within their limits and valid, a known alias that stands for this topic or a new one within the limit, identifiers only where they are taken; nothing else is asked |
| `FanOut.ReusedReads` | publishcopyfactory.cpp:35-60 | the incoming bytes with the subscriber's id and flags are read as its message too, with the subscriber's own limits and aliases |
| `FanOut.EachReadsItsOwn` | publishcopyfactory.cpp:35-90 | hence whatever the factory serves a subscriber, made for it or reused, is read as those fields by any reader that can take them, whose limits and aliases need not be the publisher's |
| `FanOut.Deliver` | mqttpacket.cpp:2164-2290 | from the arrival of a PUBLISH through all its subscribers: each is written what any reader that can take it reads as the original payload and properties with the subscriber's own topic, QoS, retain flag, packet id and subscription identifier; nothing is written only to a subscriber for whom it is not small, in texts of up to 65535 bytes, 51 user properties and 260,000,000 bytes of payload |
| `FanOut.SmallIsBuilt` | mqttpacket.cpp:156-234 | a message that is small in this sense can always be built for a subscriber |
| `TopicAliases.OutgoingTopicAliases.Look` | client.cpp:454-476 | a known topic is sent by its alias alone, a new one with the next alias while the limit allows, others without |
| `TopicAliases.OutgoingTopicAliases.Keep` | client.cpp:494-500 | a new alias is kept exactly when the packet that introduces it was accepted |
| `TopicAliases.StepAgrees` | client.cpp:434-502 | every step of any thread keeps sender's aliases and receiver's aliases in agreement |
| `TopicAliases.RunAgrees` | client.cpp:434-502 | so does every run, with any write refused |
| `TopicAliases.ReceiverResolvesEveryTopic` | client.cpp:454-710 | a receiver with at least the sender's limit never meets an error and reads just the topics with which the accepted writes were started, in order |
| `TopicAliases.AliasesAreDistinct` | client.cpp:454-502 | no two topics share an alias and none exceeds the limit |
| `TopicAliases.PrefixAgrees` | mqttpacket.cpp:2060-2091 | the receiver also agrees on whatever part of the packets it has read |
| `TopicAliases.WithoutLockTopicsMix` | client.cpp:444-475 | with two threads choosing before either writes, a receiver takes one topic for another |
| `AclRules.MatchesByLevels` | acltree.cpp:170-220 | a filter matches a topic exactly when they agree place by place up to the filter's `#`, where `+`, and in patterns the user and client names, stand for one level, and, without a `#`, have the same length |
| `AclRules.FoundHere` | acltree.cpp:176-188 | at the end of a topic the rules that match are those ending here or with their `#` here |
| `AclRules.FoundNext` | acltree.cpp:190-220 | before its end they are those with `#` here and those found through the literal, `+`, `%u` and `%c` branches |
| `AclRules.FoundAtRoot` | acltree.cpp:170-220 | what the branches find from the root on is what all matching rules grant |
| `AclRules.GrantsAtMembers` | acltree.cpp:150-167 | a node's two grant lists hold exactly the grants of the rules that end there or have their `#` there |
| `AclRules.ScanSees` | acltree.cpp:236-283 | one pass over the rules sees a deny, and a grant for the access, exactly when a matching rule has it |
| `AclRules.OrderDoesNotMatter` | acltree.cpp:137-168 | rules in another order, or repeated, grant the same |
| `AclTrees.AclNode.GetChildren` | acltree.cpp:22-41 | the node of a level is found, or made once and linked in; wildcard flags are set with it |
| `AclTrees.AclNode.GetChildrenPlus` | acltree.cpp:55-61 | the same for `+` |
| `AclTrees.AclNode.AddGrant` | acltree.cpp:103-107 | one grant more at the end of a filter |
| `AclTrees.AclNode.AddGrantPound` | acltree.cpp:109-113 | one grant more at a `#` |
| `AclTrees.Descend` | acltree.cpp:152-164 | going down a level keeps the tree a tree for the same rules |
| `AclTrees.Walk` | acltree.cpp:150-165 | the loop ends at the node of the filter, or of its `#`, with all nodes on the way there made |
| `AclTrees.AddTopicTo` | acltree.cpp:150-168 | the tree for a list of rules becomes the tree for the list with the new rule |
| `AclTrees.FindPermissionRecursive` | acltree.cpp:170-220 | collects exactly the grants of the rules that go through the node and match the rest of the topic |
| `AclTrees.AclTree.AddTopic` | acltree.cpp:137-168 | the call is noted as it was made, after all earlier ones, and the trees are those for the calls again |
| `AclTrees.AclTree.Collect` | acltree.cpp:236-262 | from the root of a tree: exactly what the owner's rules grant the topic |
| `AclTrees.AclTree.CollectAll` | acltree.cpp:236-262 | what the rules added with this very name (or, for a client without one, those without a name) grant, and unless there was a deny what the patterns do, whatever name they were added with |
| `AclTrees.Judge` | acltree.cpp:264-283 | a deny overrides; otherwise the access itself or read-write has to be granted |
| `AclTrees.AclTree.FindPermission` | acltree.cpp:236-283 | after any sequence of addTopic calls the answer is that of the calls alone: allowed exactly when, of the rules with the client's own name and the patterns that match, none denies and one gives the access |
| `AclTrees.OneMoreRule` | acltree.cpp:137-147 | what one call more does to any answer: nothing for a client of another name, or with or without one, unless it is a pattern; a pattern is the same with any name; a deny that concerns the client closes, a grant opens if nothing denies |
| `AclTrees.EarlyDeny` | acltree.cpp:258-262 | skipping the patterns after a deny makes no difference |
| `AclTrees.PermissionIsScan` | acltree.cpp:236-283 | that answer is the one of deny-overrides scans over the rules of the client's name and over the patterns |
| `AclTrees.PermissionIgnoresOrder` | acltree.cpp:137-283 | and it does not depend on the order in which rules were added |

## Left out

- CirBufs.CirBuf.EnsureFreeSpace: a capacity of exactly 2^31, where the piece sizes do not fit the `int` they are kept in, and requests of 2^31 bytes and more; capacities are powers of two from 1 to 2^30.
- CirBufs.CirBuf.DoubleCapacity: the same capacity of exactly 2^31, and allocation that fails; memory is unlimited.
- CirBufs.CirBuf.WriteRange: growth to the same capacity.
- ClientWrite.WriteBuf.WriteMqttPacket: growth to the same capacity; back-pressure on reading (`checkPressure`), counters, and the disconnect stage are not part of this model.
- WebsocketDecoder.WebsocketReader.WebsocketBytesToReadBuffer: the pending bytes are a sequence, the content of the circular buffer, and the payloads to pong are returned as a list. `WebsocketWriter.ReadAndAnswer` writes them after the call instead of during it, which makes no difference to the decoder, and needs room for them below a capacity of 2^30 bytes; a buffer that cannot grow for a pong in the middle of decoding is not modelled. The wrap-around of the 32-bit key index is harmless, since 4 divides 2^32.
- WebsocketRuns.DecodingIgnoresChunking: speaks of the payloads to pong; the bytes written for them are `WebsocketWriter.Writer.AnswerAll`.
- WebsocketEncoder.WriteAsMuchOfBufAsWebsocketFrame: growth to a capacity of exactly 2^31.
- WebsocketEncoder.Pong: growth to the same capacity.
- WebsocketWriter.Writer.constructor: a `client_max_write_buffer_size` above 2^30, with which the buffer could grow to 2^31.
- WebsocketWriter.Writer.Answer: answering with 2^30 bytes or more waiting.
- MqttSplitter.BufferToMqttPackets: the ACME redirect of unauthenticated clients, and packet types' own flags beyond those checked when a packet is taken from the buffer.
- MqttPackets.MqttPacket.ReadIntoBuf: stated for a buffer that has room, which `ClientWrite` provides; growth inside the write is `CirBufs.CirBuf.WriteRange`.
- MqttPackets.MqttPacket.ParsePublishData: UTF-8 validation is a function parameter; the expiry interval is the one read, because clocks are not part of the publish modules; the reader says whether it is a testing build, which keeps a subscription identifier from anyone, or a release build, which takes one from a local bridge only and discards it.
- MqttPackets.Build: user properties that are absent and an empty list of them are the same value; the property builder's optional absence is an empty byte sequence, which has the same encoding.
- FanOut.HandlePublish: the ACL check, alterations by plugins, topic prefixes, retained messages and the subscription store; the model starts where the publish is passed on unaltered.
- FanOut.PublishCopyFactory.SendTo: the ACL check that precedes it, whose outcome is the `maxQos` and `retain` of a subscriber.
- AclTrees.FindPermissionRecursive: the order in which grants are collected and how often each is; only the set of them matters for the answer.
- AclTrees.AclTree.FindPermission: splitting topics and filters at slashes (levels are sequences of strings), and reading rules from a file; the skipping of empty nodes, whose flag never becomes true.
- QosTwoParty.DeliveredAtMostOnce: ranges over the runs whose steps are sound, which `QosTwoParty.StepKeepsExactly` shows to be exactly the steps that keep the invariant behind it. For each condition but one a run shows what goes wrong without it: a double delivery for a resend between queueing and writing, and a lost message for a drop under way, for a refusal that a copy follows, and for an id issued too early; a resend while a refusal is under way sends the copy that follows. The thread of a connection is taken to be done with what it has received when the connection ends; one that still handles acknowledgements after its session was taken over by another client is not modelled.
- QosTwoParty.DeliveredAtLeastOnce: ranges over the same runs.
- QosDelivery.FinishesAfterReconnect: the connection lasts and every write is accepted, which includes the resend's second look at the ACL (session.cpp:406); a write that the client refuses loses the packet until the next connection, as one that is on its way when a connection ends.
- QosTwoParty.LostAccountLosesMessage: the link is otherwise idle, so that the ids can come round.
- QosInvariants.UsedIdsAreQueuedOrReleased: a PUBREC for an id that is not in use, which breaks the account (`QosInvariants.PubRecKeepsAccount`), and other acknowledgements of ids that were never sent; sessions restored from disk, which queue messages without claiming their ids.
- QosSession.QoSData.HandlePubRec: as a method, one section directly after the other; what other threads do in between is in `QosInvariants` and `QosTwoParty`.
- QosSession.QoSData.GetNextPacketId: a set of used ids that is completely full, for which the search does not end; the bit array behind the set is a set of ids.
- QosSession.QoSData.WritePacket: the ACL check before it, the lookup of the client, of which it has the outcome, and the message's fields beyond topic, payload, QoS and expiry; sessions are those that survive a disconnect (`destroyOnDisconnect` is false).
- QosQueue.QoSPublishQueue.ClearExpiredMessages: weak pointers are references to nodes, and a node taken out of the map is one whose weak pointer has expired.
- Logging, statistics, sockets, TLS, the HTTP upgrade, HAProxy and epoll: input and output.
- CONNECT and AUTH handling, authentication, wills and the bridges' reconnect policy: many branches, each settled by reading it.
- The subscription tree, retained messages and shared subscriptions: subscriptionstore.cpp is not part of this model.
- Persistence: the database files are not part of this model.
- A bridge whose other side has lost the session resets its own (`resetQoSData`), which is as a fresh one.
- Mutexes: every locked section is one step, an operation with two of them is two steps, and the alias lock is held across the write as the code holds it.
