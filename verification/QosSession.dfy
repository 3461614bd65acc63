/**
 Session::QoSData and the locked sections of Session that use it. Every method is proved to do to
 the state exactly what its function in QosState does.
 */
module QosSession {
  import opened Numbers
  import opened Options
  import opened QosState
  import opened QosQueue

  /** What the ACL makes of a publish: allowed, allowed but not to be forwarded, or refused. */
  datatype AclVerdict = Success | SuccessButDrop | Denied

  /** Reason codes from here on are errors. */
  const UNSPECIFIED_ERROR := 0x80
  const NOT_AUTHORIZED := 0x87

  class QoSData {
    const qosPacketQueue: QoSPublishQueue
    var usedIds: set<PacketId>
    var nextPacketId: PacketId
    var flowControlCeiling: int
    var flowControlQuota: int
    var incomingQoS2MessageIds: set<PacketId>
    var outgoingQoS2MessageIds: set<PacketId>
    var lastExpiredMessagesAt: nat

    ghost function State(): QosData
      reads this, qosPacketQueue
    {
      QosData(usedIds, qosPacketQueue.Contents(), nextPacketId, flowControlQuota, flowControlCeiling,
              incomingQoS2MessageIds, outgoingQoS2MessageIds)
    }

    ghost predicate Valid()
      reads this, qosPacketQueue, qosPacketQueue.nodes
    {
      qosPacketQueue.Valid()
    }

    constructor (maxQosMsgPendingPerClient: PacketId, now: nat)
      ensures Valid() && fresh(qosPacketQueue) && qosPacketQueue.nodes == []
      ensures State() == QosData({}, [], 0, maxQosMsgPendingPerClient, 0xFFFF, {}, {})
    {
      qosPacketQueue := new QoSPublishQueue();
      usedIds, nextPacketId := {}, 0;
      flowControlCeiling, flowControlQuota := 0xFFFF, maxQosMsgPendingPerClient;
      incomingQoS2MessageIds, outgoingQoS2MessageIds := {}, {};
      lastExpiredMessagesAt := now;
    }

    method IncreaseFlowControlQuota(packetId: PacketId)
      modifies this`flowControlQuota, this`usedIds
      ensures State() == FreeId(old(State()), packetId)
    {
      flowControlQuota := flowControlQuota + 1;
      flowControlQuota := Min(flowControlQuota, flowControlCeiling);
      usedIds := usedIds - {packetId};
    }

    method ResetFlowControlCounters(receiveMax: PacketId)
      modifies this`flowControlQuota, this`flowControlCeiling
      ensures State() == Connect(old(State()), receiveMax)
    {
      flowControlCeiling := receiveMax;
      flowControlQuota := receiveMax;
    }

    /** The search loop of getNextPacketId; it ends because some id is unused. */
    method AdvanceToUnused() returns (found: bool)
      requires exists id :: Usable(id, usedIds)
      modifies this`nextPacketId
      ensures nextPacketId == Wrap16(old(nextPacketId) + StepsToFree(usedIds, old(nextPacketId), 1))
      ensures found == (nextPacketId != old(nextPacketId))
    {
      var end := nextPacketId;
      ghost var d := StepsToFree(usedIds, end, 1);
      ghost var k := 0;
      ghost var free :| Usable(free, usedIds);
      ghost var turn := TurnCovers(end, free);
      assert UsableAfter(usedIds, end, turn);
      while true
        invariant 0 <= k < d && nextPacketId == Wrap16(end + k)
        decreases d - k
      {
        nextPacketId := Wrap16(nextPacketId + 1);
        k := k + 1;
        assert k < d ==> !UsableAfter(usedIds, end, k);
        if nextPacketId == 0 {
          continue;
        }
        if nextPacketId in usedIds {
          continue;
        }
        if nextPacketId == end {
          return false;
        }
        return true;
      }
    }

    /** Claims the next unused id, if the quota allows it and that is not the last one issued. */
    method GetNextPacketId() returns (r: Option<PacketId>)
      requires flowControlQuota != 0 ==> exists id :: Usable(id, usedIds)
      modifies this`nextPacketId, this`flowControlQuota, this`usedIds
      ensures (State(), r) == Claim(old(State()))
    {
      if flowControlQuota == 0 {
        return None;
      }
      var found := AdvanceToUnused();
      if !found {
        return None;
      }
      flowControlQuota := flowControlQuota - 1;
      usedIds := usedIds + {nextPacketId};
      r := Some(nextPacketId);
    }

    method IncreaseFlowControlQuotaForAll(ids: seq<PacketId>)
      modifies this`flowControlQuota, this`usedIds
      ensures State() == FreeIds(old(State()), ids)
    {
      for i := 0 to |ids|
        invariant FreeIds(State(), ids[i..]) == FreeIds(old(State()), ids)
      {
        IncreaseFlowControlQuota(ids[i]);
      }
    }

    /** At most once a second, the sweep of the queue; each id it drops becomes free. */
    method ClearExpiredMessagesFromQueue(clock: nat -> nat) returns (ghost swept: bool, ghost cut: nat, ghost readings: nat)
      requires Valid()
      requires forall i: nat, j: nat :: i <= j ==> clock(i) <= clock(j)
      modifies this, qosPacketQueue, qosPacketQueue.nodes
      ensures Valid() && forall n :: n in qosPacketQueue.nodes ==> n in old(qosPacketQueue.nodes)
      ensures swept == (old(lastExpiredMessagesAt) + NANOS <= clock(0))
      ensures clock(0) <= cut <= clock(readings)
      ensures State() == if swept then ExpireAt(old(State()), cut) else old(State())
      ensures swept ==> SweptBetween(old(State()).queue, State().queue, clock(0), clock(readings))
      ensures swept ==> usedIds == old(usedIds) - (Ids(old(State()).queue) - Ids(State().queue))
    {
      var now := clock(0);
      swept, cut, readings := lastExpiredMessagesAt + NANOS <= now, now, 0;
      if lastExpiredMessagesAt + NANOS > now {
        return;
      }
      lastExpiredMessagesAt := now;
      cut, readings := Sweep(i => clock(i + 1));
      readings := readings + 1;
      DroppedByClock(old(State()).queue, clock(0), cut, clock(readings));
    }

    /** The sweep itself. */
    method Sweep(clock: nat -> nat) returns (ghost cut: nat, ghost readings: nat)
      requires Valid()
      requires forall i: nat, j: nat :: i <= j ==> clock(i) <= clock(j)
      modifies this`flowControlQuota, this`usedIds, qosPacketQueue, qosPacketQueue.nodes
      ensures Valid() && forall n :: n in qosPacketQueue.nodes ==> n in old(qosPacketQueue.nodes)
      ensures clock(0) <= cut <= clock(readings) && State() == ExpireAt(old(State()), cut)
    {
      ghost var was := State();
      var removed;
      removed, cut, readings := qosPacketQueue.ClearExpiredMessages(clock);
      ExpireByIds(was, State(), cut, removed);
      IncreaseFlowControlQuotaForAll(removed);
    }

    /**
     The locked section of Session::writePacket for a QoS 1 or 2 publish: sweep when the client is
     off-line, claim an id if there is room, and queue under that id. The id is not queued already,
     because every queued id is in use.
     */
    method WritePacket(publish: Publish, topicOverride: Option<string>, online: bool, clock: nat -> nat, maxBytes: nat)
      returns (id: Option<PacketId>, ghost swept: bool, ghost cut: nat)
      requires Valid() && Ids(State().queue) <= usedIds && 0 !in usedIds
      requires flowControlQuota != 0 ==> exists id :: Usable(id, usedIds)
      requires forall i: nat, j: nat :: i <= j ==> clock(i) <= clock(j)
      modifies this, qosPacketQueue, qosPacketQueue.nodes
      ensures Valid()
      ensures swept == (!online && old(lastExpiredMessagesAt) + NANOS <= clock(0))
      ensures clock(0) <= cut
      ensures (State(), id) == Queue(if swept then ExpireAt(old(State()), cut) else old(State()), publish, topicOverride, maxBytes)
    {
      swept, cut := false, clock(0);
      if !online {
        ghost var readings;
        ghost var q := State();
        swept, cut, readings := ClearExpiredMessagesFromQueue(clock);
        SweepFrees(q, State(), if swept then Some(cut) else None);
        assert forall k :: 0 <= k < |qosPacketQueue.nodes| ==> qosPacketQueue.nodes[k] in old(qosPacketQueue.nodes);
      }
      id := QueueUnderNewId(publish, topicOverride, maxBytes);
    }

    method QueueUnderNewId(publish: Publish, topicOverride: Option<string>, maxBytes: nat) returns (id: Option<PacketId>)
      requires Valid() && Ids(State().queue) <= usedIds
      requires flowControlQuota != 0 ==> exists id :: Usable(id, usedIds)
      modifies this, qosPacketQueue, qosPacketQueue.nodes
      ensures Valid()
      ensures (State(), id) == Queue(old(State()), publish, topicOverride, maxBytes)
    {
      id := None;
      IdsAreKeys(qosPacketQueue.nodes, qosPacketQueue.queue);
      DistinctCount(State().queue);
      if qosPacketQueue.qosQueueBytes < maxBytes || |qosPacketQueue.queue| == 0 {
        id := GetNextPacketId();
      }
      if id.Some? {
        QueueUnder(publish, id.value, topicOverride);
      }
    }

    method QueueUnder(publish: Publish, id: PacketId, topicOverride: Option<string>)
      requires Valid() && id !in Ids(State().queue)
      modifies qosPacketQueue, qosPacketQueue.nodes
      ensures Valid() && State() == old(State()).(queue := old(State()).queue + [Entry(id, publish, topicOverride)])
    {
      IdsAreKeys(qosPacketQueue.nodes, qosPacketQueue.queue);
      ghost var node := qosPacketQueue.QueuePublish(publish, id, topicOverride);
    }

    /** Session::clearQosMessage: the message leaves the queue; only the end of a handshake frees its id. */
    method ClearQosMessage(packetId: PacketId, qosHandshakeEnds: bool) returns (result: bool)
      requires Valid()
      modifies this, qosPacketQueue, qosPacketQueue.nodes
      ensures Valid()
      ensures result == (packetId in Ids(old(State()).queue))
      ensures State() == Clear(old(State()), packetId, qosHandshakeEnds)
    {
      ghost var at;
      result, at := qosPacketQueue.Erase(packetId);
      if qosHandshakeEnds && result {
        IncreaseFlowControlQuota(packetId);
      }
    }

    /** Session::addOutgoingQoS2MessageId. */
    method AddOutgoingQoS2MessageId(packetId: PacketId)
      requires Valid()
      modifies this`outgoingQoS2MessageIds
      ensures Valid() && State() == AddOutgoing(old(State()), packetId)
    {
      outgoingQoS2MessageIds := outgoingQoS2MessageIds + {packetId};
    }

    /** MqttPacket::handlePubRec, when no other thread comes between its two locked sections; answers with a PUBREL, that says whether the id was queued, unless the handshake ends here. */
    method HandlePubRec(packetId: PacketId, isError: bool) returns (pubRel: Option<bool>)
      requires Valid()
      modifies this, qosPacketQueue, qosPacketQueue.nodes
      ensures Valid()
      ensures State() == PubRec(old(State()), packetId, isError)
      ensures pubRel == if isError then None else Some(packetId in Ids(old(State()).queue))
    {
      var found := ClearQosMessage(packetId, isError);
      pubRel := None;
      if !isError {
        AddOutgoingQoS2MessageId(packetId);
        pubRel := Some(found);
      }
    }

    /** Session::removeOutgoingQoS2MessageId, on PUBCOMP. */
    method RemoveOutgoingQoS2MessageId(packetId: PacketId)
      requires Valid()
      modifies this`outgoingQoS2MessageIds, this`flowControlQuota, this`usedIds
      ensures Valid() && State() == PubComp(old(State()), packetId)
    {
      if packetId in outgoingQoS2MessageIds {
        outgoingQoS2MessageIds := outgoingQoS2MessageIds - {packetId};
        IncreaseFlowControlQuota(packetId);
      }
    }

    /**
     The QoS 2 part of MqttPacket::handlePublish. An id in transit is acknowledged again and nothing
     else; a new id is recorded before the ACL is asked. Returns whether the message goes to the
     subscribers and whether the PUBREC carries an error code, which only MQTT 5 has.
     */
    method HandlePublishQos2(packetId: PacketId, verdict: AclVerdict, mqtt5: bool) returns (forwarded: bool, isError: bool)
      requires Valid()
      modifies this`incomingQoS2MessageIds
      ensures Valid()
      ensures State() == old(State()).(incoming := old(State()).incoming + {packetId})
      ensures forwarded == (packetId !in old(State()).incoming && verdict.Success?)
      ensures isError == (packetId !in old(State()).incoming && verdict.Denied? && mqtt5)
    {
      if packetId in incomingQoS2MessageIds {
        return false, false;
      }
      incomingQoS2MessageIds := incomingQoS2MessageIds + {packetId};
      forwarded := verdict == Success;
      var reasonCode := if verdict == Denied then NOT_AUTHORIZED else 0;
      isError := (if mqtt5 then reasonCode else 0) >= UNSPECIFIED_ERROR;
    }

    /** MqttPacket::handlePubRel: the id is released; the PUBCOMP says whether it was held. */
    method HandlePubRel(packetId: PacketId) returns (found: bool)
      requires Valid()
      modifies this`incomingQoS2MessageIds
      ensures Valid() && found == (packetId in old(State()).incoming)
      ensures State() == old(State()).(incoming := old(State()).incoming - {packetId})
    {
      found := false;
      if packetId in incomingQoS2MessageIds {
        incomingQoS2MessageIds := incomingQoS2MessageIds - {packetId};
        found := true;
      }
    }

    /**
     The locked section of Session::sendAllPendingQosData. It erases while it walks, but decides
     each queued message exactly once: what is copied for sending is what stays in the queue, in
     order, namely the first allowed messages, up to the quota.
     */
    method CopyAllPendingQosData(verdict: Entry -> bool) returns (copiedPublishes: seq<Entry>, copiedQoS2Ids: set<PacketId>)
      requires Valid()
      modifies this, qosPacketQueue, qosPacketQueue.nodes
      ensures Valid()
      ensures State() == Resend(old(State()), verdict)
      ensures copiedPublishes == State().queue == Kept(old(State()).queue, old(State()).quota, verdict)
      ensures copiedQoS2Ids == old(State()).outgoing
    {
      ghost var q, was := State(), qosPacketQueue.nodes;
      copiedPublishes := DecideAll(verdict);
      WalkedAll(was, qosPacketQueue.nodes, copiedPublishes, q.quota, verdict);
      ResendIs(q, verdict, copiedPublishes);
      copiedQoS2Ids := outgoingQoS2MessageIds;
    }

    /** The loop: from the tail along `next`, where the message just decided may have been erased. */
    method DecideAll(verdict: Entry -> bool) returns (copied: seq<Entry>)
      requires Valid()
      modifies this`usedIds, this`flowControlQuota, qosPacketQueue, qosPacketQueue.nodes
      ensures Valid()
      ensures Deciding(old(qosPacketQueue.nodes), |old(qosPacketQueue.nodes)|, copied, old(flowControlQuota), old(usedIds), verdict)
    {
      copied := [];
      ghost var was, i, quota, used := qosPacketQueue.nodes, 0, flowControlQuota, usedIds;
      IdsAreKeys(was, qosPacketQueue.queue);
      var next := qosPacketQueue.tail;
      while next != null
        invariant Valid() && Deciding(was, i, copied, quota, used, verdict)
        invariant next == if i < |was| then was[i] else null
        modifies this`usedIds, this`flowControlQuota, qosPacketQueue, was
        decreases |was| - i
      {
        var qp := next;
        next := next.next;
        assert next == if i + 1 < |was| then was[i + 1] else null by {
          NextInWalk(was, i, qosPacketQueue.nodes, copied, quota, verdict);
        }
        copied := DecideMessage(qp, copied, verdict, was, i, quota, used);
        i := i + 1;
      }
    }

    /** The state of the resend loop when it has decided `i` of the messages that it started from. */
    ghost predicate Deciding(was: seq<QueuedPublish>, i: int, copied: seq<Entry>, quota: int, used: set<PacketId>, verdict: Entry -> bool)
      reads this, qosPacketQueue
    {
      && Walked(was, i, qosPacketQueue.nodes, copied, quota, verdict)
      && flowControlQuota == quota - |copied|
      && usedIds == UsedAfter(Values(was), i, quota, verdict, used)
    }

    /** One round of the resend loop: the message is dropped, or counted against the quota and copied. */
    method DecideMessage(qp: QueuedPublish, copied: seq<Entry>, verdict: Entry -> bool,
                         ghost was: seq<QueuedPublish>, ghost i: int, ghost quota: int, ghost used: set<PacketId>)
      returns (copied': seq<Entry>)
      requires Valid() && Deciding(was, i, copied, quota, used, verdict)
      requires DistinctIds(Values(was)) && i < |was| && qp == was[i]
      modifies this`usedIds, this`flowControlQuota, qosPacketQueue, qosPacketQueue.nodes
      ensures Valid() && Deciding(was, i + 1, copied', quota, used, verdict)
    {
      WalkedNext(was, i, qosPacketQueue.nodes, copied, quota, verdict, used);
      if !verdict(qp.Value()) {
        DropFromQueue(qp, |copied|);
        return copied;
      }
      if flowControlQuota <= 0 {
        DropFromQueue(qp, |copied|);
        return copied;
      }
      flowControlQuota := flowControlQuota - 1;
      return copied + [qp.Value()];
    }

    /** eraseQueuedPublish and releasePacketId, for the node at position `k` of the walk. */
    method DropFromQueue(qp: QueuedPublish, ghost k: nat)
      requires Valid() && k < |qosPacketQueue.nodes| && qosPacketQueue.nodes[k] == qp
      modifies this`usedIds, qosPacketQueue, qosPacketQueue.nodes
      ensures Valid() && qosPacketQueue.nodes == WithoutAt(old(qosPacketQueue.nodes), k)
      ensures usedIds == old(usedIds) - {qp.packetId}
    {
      IdsAreKeys(qosPacketQueue.nodes, qosPacketQueue.queue);
      ghost var values := Values(qosPacketQueue.nodes);
      DistinctIdPairs(values);
      assert values[k] in values;
      var erased;
      ghost var at;
      erased, at := qosPacketQueue.Erase(qp.packetId);
      assert values[at].id == values[k].id;
      usedIds := usedIds - {qp.packetId};
    }
  }

  /**
   The resend loop after `i` decisions: the messages kept so far lead the list and are the ones
   copied, and the messages not looked at yet follow them.
   */
  ghost predicate Walked(was: seq<QueuedPublish>, i: int, nodes: seq<QueuedPublish>, copied: seq<Entry>,
                         quota: int, verdict: Entry -> bool)
  {
    && 0 <= i <= |was|
    && |nodes| == |copied| + |was| - i
    && nodes[|copied|..] == was[i..]
    && Values(nodes)[..|copied|] == copied
    && copied == Kept(Values(was)[..i], quota, verdict)
    && (forall k :: 0 <= k < |nodes| ==> nodes[k] in was)
  }

  /** Where the walk goes on. */
  lemma NextInWalk(was: seq<QueuedPublish>, i: int, nodes: seq<QueuedPublish>, copied: seq<Entry>, quota: int, verdict: Entry -> bool)
    requires Walked(was, i, nodes, copied, quota, verdict) && i < |was|
    ensures nodes[|copied|] == was[i]
    ensures if i + 1 < |was| then |copied| + 1 < |nodes| && nodes[|copied| + 1] == was[i + 1] else |copied| + 1 == |nodes|
  {
    assert nodes[|copied|..][0] == was[i..][0];
    assert i + 1 < |was| ==> nodes[|copied|..][1] == was[i..][1];
  }

  lemma WalkedNext(was: seq<QueuedPublish>, i: int, nodes: seq<QueuedPublish>, copied: seq<Entry>,
                   quota: int, verdict: Entry -> bool, used: set<PacketId>)
    requires Walked(was, i, nodes, copied, quota, verdict) && i < |was| && DistinctIds(Values(was))
    ensures nodes[|copied|] == was[i]
    ensures var keep := verdict(was[i].Value()) && |copied| < quota;
      && (if keep then Walked(was, i + 1, nodes, copied + [was[i].Value()], quota, verdict)
          else Walked(was, i + 1, WithoutAt(nodes, |copied|), copied, quota, verdict))
      && UsedAfter(Values(was), i + 1, quota, verdict, used)
           == UsedAfter(Values(was), i, quota, verdict, used) - (if keep then {} else {was[i].packetId})
  {
    DecideNext(Values(was), i, quota, verdict, used);
    NextInWalk(was, i, nodes, copied, quota, verdict);
    if verdict(was[i].Value()) && |copied| < quota {
      WalkedKeep(was, i, nodes, copied, quota, verdict);
    } else {
      assert copied + [] == copied;
      WalkedDrop(was, i, nodes, copied, quota, verdict);
    }
  }

  lemma WalkedKeep(was: seq<QueuedPublish>, i: int, nodes: seq<QueuedPublish>, copied: seq<Entry>, quota: int, verdict: Entry -> bool)
    requires Walked(was, i, nodes, copied, quota, verdict) && i < |was| && nodes[|copied|] == was[i]
    requires copied + [was[i].Value()] == Kept(Values(was)[..i + 1], quota, verdict)
    ensures Walked(was, i + 1, nodes, copied + [was[i].Value()], quota, verdict)
  {
    var c := |copied|;
    assert nodes[c + 1..] == nodes[c..][1..] == was[i..][1..];
    assert Values(nodes)[..c + 1] == Values(nodes)[..c] + [Values(nodes)[c]];
  }

  lemma WalkedDrop(was: seq<QueuedPublish>, i: int, nodes: seq<QueuedPublish>, copied: seq<Entry>, quota: int, verdict: Entry -> bool)
    requires Walked(was, i, nodes, copied, quota, verdict) && i < |was| && nodes[|copied|] == was[i]
    requires copied == Kept(Values(was)[..i + 1], quota, verdict)
    ensures Walked(was, i + 1, WithoutAt(nodes, |copied|), copied, quota, verdict)
  {
    var c := |copied|;
    var r := WithoutAt(nodes, c);
    assert r[c..] == nodes[c + 1..] == nodes[c..][1..] == was[i..][1..];
    assert Values(r)[..c] == Values(nodes)[..c];
  }

  lemma WalkedAll(was: seq<QueuedPublish>, nodes: seq<QueuedPublish>, copied: seq<Entry>, quota: int, verdict: Entry -> bool)
    requires Walked(was, |was|, nodes, copied, quota, verdict)
    ensures Values(was)[..|was|] == Values(was)
    ensures Values(nodes) == copied == Kept(Values(was), quota, verdict)
  {
  }

  lemma ResendIs(q: QosData, verdict: Entry -> bool, copied: seq<Entry>)
    requires copied == Kept(q.queue, q.quota, verdict)
    ensures Resend(q, verdict)
         == q.(queue := copied, quota := q.quota - |copied|, usedIds := UsedAfter(q.queue, |q.queue|, q.quota, verdict, q.usedIds))
  {
    assert q.queue[..|q.queue|] == q.queue;
  }

  /** If there is quota after a sweep, there is an id left: it was there before, or its message was dropped. */
  lemma SweepFrees(q: QosData, q': QosData, cut: Option<nat>)
    requires Ids(q.queue) <= q.usedIds && 0 !in q.usedIds
    requires q' == if cut.Some? then ExpireAt(q, cut.value) else q
    requires q.quota != 0 ==> exists id :: Usable(id, q.usedIds)
    ensures Ids(q'.queue) <= q'.usedIds
    ensures q'.quota != 0 ==> exists id :: Usable(id, q'.usedIds)
  {
    if cut.Some? {
      DropDueMembers(q.queue, cut.value);
      var gone := Ids(q.queue) - Ids(q'.queue);
      if gone == {} {
        assert q'.usedIds == q.usedIds;
      } else {
        var id :| id in gone;
        assert Usable(id, q'.usedIds);
      }
    }
  }

  lemma ExpireByIds(q: QosData, dropped: QosData, cut: nat, removed: seq<PacketId>)
    requires dropped == q.(queue := DropDue(q.queue, cut))
    requires Lists(removed, Ids(q.queue) - Ids(dropped.queue))
    ensures FreeIds(dropped, removed) == ExpireAt(q, cut)
  {
    FreeIdsAll(dropped, removed);
    ListsMembers(removed, Ids(q.queue) - Ids(dropped.queue));
  }
}
