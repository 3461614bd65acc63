/** An optional value, the counterpart of std::optional. */
module Options {
  datatype Option<+T> = None | Some(value: T) {
    function GetOr(other: T): T {
      if Some? then value else other
    }
  }
}

/**
 The value behind a session's QoS bookkeeping, and what each locked section does to it.
 The classes in QosQueue.dfy and QosSession.dfy are proved against these functions, and the
 run theorems in QosInvariants.dfy and QosTwoParty.dfy are proved about them.
 */
module QosState {
  import opened Numbers
  import opened Options

  const PACKET_ID_VALUES: int := 0x1_0000
  const NANOS: nat := 1_000_000_000

  /** uint16_t */
  type PacketId = i: int | 0 <= i < PACKET_ID_VALUES

  /** Times are nanoseconds on the steady clock. */
  datatype Publish = Publish(topic: string, payload: string, qos: nat, expiresAt: Option<nat>)

  datatype Entry = Entry(id: PacketId, publish: Publish, topicOverride: Option<string>)

  /** The fields of Session::QoSData; the queue runs from oldest (tail) to newest (head). */
  datatype QosData = QosData(
    usedIds: set<PacketId>,
    queue: seq<Entry>,
    nextPacketId: PacketId,
    quota: int,
    ceiling: int,
    incoming: set<PacketId>,
    outgoing: set<PacketId>)

  // ---------- the queue ----------

  function Ids(queue: seq<Entry>): set<PacketId> {
    set e | e in queue :: e.id
  }

  ghost predicate DifferentIds(queue: seq<Entry>, i: nat, j: nat) {
    i < j < |queue| ==> queue[i].id != queue[j].id
  }

  /** Stated through DifferentIds, so that pairs are only looked at where a proof asks for it. */
  ghost predicate DistinctIds(queue: seq<Entry>) {
    forall i, j :: DifferentIds(queue, i, j)
  }

  lemma DistinctIdPairs(queue: seq<Entry>)
    ensures DistinctIds(queue) <==> forall i, j :: 0 <= i < j < |queue| ==> queue[i].id != queue[j].id
  {
    if DistinctIds(queue) {
      forall i, j | 0 <= i < j < |queue| ensures queue[i].id != queue[j].id {
        assert DifferentIds(queue, i, j);
      }
    } else {
      var i: nat, j: nat :| !DifferentIds(queue, i, j);
      assert i < j < |queue| && queue[i].id == queue[j].id;
    }
  }

  /** Distinctness of a nonempty queue, from its oldest entry on. */
  lemma DistinctIdsTail(queue: seq<Entry>)
    requires queue != []
    ensures DistinctIds(queue) <==> queue[0].id !in Ids(queue[1..]) && DistinctIds(queue[1..])
  {
    DistinctIdPairs(queue);
    DistinctIdPairs(queue[1..]);
    if queue[0].id !in Ids(queue[1..]) && DistinctIds(queue[1..]) {
      forall i, j | 0 <= i < j < |queue| ensures queue[i].id != queue[j].id {
        assert queue[j] == queue[1..][j - 1] && queue[j] in queue[1..];
        if i > 0 { assert queue[i] == queue[1..][i - 1]; }
      }
    } else if queue[0].id in Ids(queue[1..]) {
      var e :| e in queue[1..] && e.id == queue[0].id;
      var j :| 0 <= j < |queue[1..]| && queue[1..][j] == e;
      assert queue[j + 1].id == queue[0].id;
    } else {
      var i, j :| 0 <= i < j < |queue[1..]| && queue[1..][i].id == queue[1..][j].id;
      assert queue[i + 1].id == queue[j + 1].id;
    }
  }

  function Footprint(p: Publish): nat {
    |p.topic| + |p.payload|
  }

  function Bytes(queue: seq<Entry>): nat {
    if queue == [] then 0 else Footprint(queue[0].publish) + Bytes(queue[1..])
  }

  /** The expiration index truncates the moment of expiry to whole seconds. */
  function ExpiryKey(at: nat): nat {
    (at / NANOS) * NANOS
  }

  predicate IsDue(p: Publish, now: nat) {
    p.expiresAt.Some? && ExpiryKey(p.expiresAt.value) <= now
  }

  /** A message is due once the second that it expires in has begun. */
  lemma DueByTheSecond(p: Publish, now: nat)
    ensures IsDue(p, now) <==> p.expiresAt.Some? && p.expiresAt.value / NANOS <= now / NANOS
    ensures IsDue(p, now) ==> p.expiresAt.value < now + NANOS
    ensures p.expiresAt.Some? && p.expiresAt.value <= now ==> IsDue(p, now)
  {
    if p.expiresAt.Some? {
      var at := p.expiresAt.value;
      assert at == (at / NANOS) * NANOS + at % NANOS && now == (now / NANOS) * NANOS + now % NANOS;
    }
  }

  lemma KeyTruncates(at: nat)
    ensures ExpiryKey(at) == at - at % NANOS
  {
  }

  function EraseId(queue: seq<Entry>, id: PacketId): seq<Entry> {
    if queue == [] then []
    else if queue[0].id == id then EraseId(queue[1..], id)
    else [queue[0]] + EraseId(queue[1..], id)
  }

  /** The queue without the entries that are due at `now`. */
  function DropDue(queue: seq<Entry>, now: nat): seq<Entry> {
    if queue == [] then []
    else (if IsDue(queue[0].publish, now) then [] else [queue[0]]) + DropDue(queue[1..], now)
  }

  /** The entries that a verdict (unexpired and allowed by the ACL) lets through. */
  function Allowed(queue: seq<Entry>, verdict: Entry -> bool): seq<Entry> {
    if queue == [] then []
    else (if verdict(queue[0]) then [queue[0]] else []) + Allowed(queue[1..], verdict)
  }

  /** What the resend loop keeps: the first `quota` entries that the verdict allows. */
  function Kept(queue: seq<Entry>, quota: int, verdict: Entry -> bool): seq<Entry> {
    var allowed := Allowed(queue, verdict);
    if quota <= 0 then [] else if |allowed| <= quota then allowed else allowed[..quota]
  }

  // ---------- packet ids ----------

  predicate Usable(id: int, used: set<PacketId>) {
    0 < id < PACKET_ID_VALUES && id !in used
  }

  /** uint16_t wrap-around, for sums of two values in range. */
  function Wrap16(x: int): PacketId
    requires 0 <= x < 2 * PACKET_ID_VALUES
  {
    if x < PACKET_ID_VALUES then x else x - PACKET_ID_VALUES
  }

  /** Whether the id that follows `last` after `k` increments is usable. */
  predicate UsableAfter(used: set<PacketId>, last: PacketId, k: nat)
    requires k <= PACKET_ID_VALUES
  {
    Usable(Wrap16(last + k), used)
  }

  /** The number of increments, counting from `k`, after which a usable id is found; a full turn when none is. */
  function StepsToFree(used: set<PacketId>, last: PacketId, k: nat): (d: nat)
    requires 1 <= k <= PACKET_ID_VALUES
    ensures k <= d <= PACKET_ID_VALUES
    ensures d < PACKET_ID_VALUES ==> UsableAfter(used, last, d)
    ensures forall j :: k <= j < d ==> !UsableAfter(used, last, j)
    decreases PACKET_ID_VALUES - k, last
  {
    if k == PACKET_ID_VALUES || UsableAfter(used, last, k) then k
    else StepsToFree(used, last, k + 1)
  }

  /** QoSData::getNextPacketId. */
  function Claim(q: QosData): (QosData, Option<PacketId>) {
    if q.quota == 0 then (q, None)
    else
      var id := Wrap16(q.nextPacketId + StepsToFree(q.usedIds, q.nextPacketId, 1));
      if id == q.nextPacketId then (q, None)
      else (q.(nextPacketId := id, quota := q.quota - 1, usedIds := q.usedIds + {id}), Some(id))
  }

  // ---------- the locked sections ----------

  /** QoSData::increaseFlowControlQuota: the id becomes free again. */
  function FreeId(q: QosData, id: PacketId): QosData {
    q.(quota := Min(q.quota + 1, q.ceiling), usedIds := q.usedIds - {id})
  }

  function FreeIds(q: QosData, ids: seq<PacketId>): QosData
    decreases ids
  {
    if ids == [] then q else FreeIds(FreeId(q, ids[0]), ids[1..])
  }

  /** The expiry sweep: every due entry leaves the queue and its id becomes free. */
  function ExpireAt(q: QosData, cut: nat): QosData {
    var gone := Ids(q.queue) - Ids(DropDue(q.queue, cut));
    q.(queue := DropDue(q.queue, cut),
       usedIds := q.usedIds - gone,
       quota := if gone == {} then q.quota else Min(q.quota + |gone|, q.ceiling))
  }

  /** The locked section of Session::writePacket after the sweep, for a session that survives disconnects. */
  function Queue(q: QosData, publish: Publish, topicOverride: Option<string>, maxBytes: nat): (QosData, Option<PacketId>) {
    if Bytes(q.queue) < maxBytes || |q.queue| == 0 then
      match Claim(q)
      case (q', None) => (q', None)
      case (q', Some(id)) => (q'.(queue := q'.queue + [Entry(id, publish, topicOverride)]), Some(id))
    else (q, None)
  }

  /** Session::clearQosMessage. */
  function Clear(q: QosData, id: PacketId, handshakeEnds: bool): QosData {
    var q' := q.(queue := EraseId(q.queue, id));
    if handshakeEnds && id in Ids(q.queue) then FreeId(q', id) else q'
  }

  /** Session::addOutgoingQoS2MessageId. */
  function AddOutgoing(q: QosData, id: PacketId): QosData {
    q.(outgoing := q.outgoing + {id})
  }

  /** Both locked sections of MqttPacket::handlePubRec; `isError` says that the reason code is 0x80 or greater. */
  function PubRec(q: QosData, id: PacketId, isError: bool): QosData {
    if isError then Clear(q, id, true) else AddOutgoing(Clear(q, id, false), id)
  }

  /** Session::removeOutgoingQoS2MessageId, on PUBCOMP. */
  function PubComp(q: QosData, id: PacketId): QosData {
    if id in q.outgoing then FreeId(q.(outgoing := q.outgoing - {id}), id) else q
  }

  /** QoSData::resetFlowControlCounters, on every connect. */
  function Connect(q: QosData, receiveMax: PacketId): QosData {
    q.(quota := receiveMax, ceiling := receiveMax)
  }

  /** The locked section of Session::sendAllPendingQosData. */
  function Resend(q: QosData, verdict: Entry -> bool): QosData {
    var kept := Kept(q.queue, q.quota, verdict);
    q.(queue := kept,
       quota := q.quota - |kept|,
       usedIds := q.usedIds - (Ids(q.queue) - Ids(kept)))
  }

  // ---------- facts about claiming ----------

  /** The k-th id tried after `last`; trying starts at 1 and a full turn ends at `last` itself. */
  lemma TurnCovers(last: PacketId, id: PacketId) returns (k: nat)
    ensures 1 <= k <= PACKET_ID_VALUES && Wrap16(last + k) == id
  {
    k := if id > last then id - last else id - last + PACKET_ID_VALUES;
  }

  /**
   The id claimed is the first nonzero unused one after the last one issued, going up and wrapping
   around, and nothing is claimed exactly when the quota is 0 or only the last one issued is unused.
   */
  lemma ClaimIsCyclicallyFirst(q: QosData)
    requires exists id :: Usable(id, q.usedIds)
    ensures var (q', r) := Claim(q);
      && (r == None <==> q.quota == 0 || forall id :: Usable(id, q.usedIds) ==> id == q.nextPacketId)
      && (r == None ==> q' == q)
      && (r.Some? ==>
            var d := if q.nextPacketId < r.value then r.value - q.nextPacketId else r.value - q.nextPacketId + PACKET_ID_VALUES;
            && Usable(r.value, q.usedIds) && r.value != q.nextPacketId
            && (forall j: nat :: 1 <= j < d ==> !UsableAfter(q.usedIds, q.nextPacketId, j))
            && q' == q.(nextPacketId := r.value, quota := q.quota - 1, usedIds := q.usedIds + {r.value}))
  {
    if q.quota != 0 {
      var d := StepsToFree(q.usedIds, q.nextPacketId, 1);
      if d == PACKET_ID_VALUES {
        forall id | Usable(id, q.usedIds) ensures id == q.nextPacketId {
          var k := TurnCovers(q.nextPacketId, id);
          assert UsableAfter(q.usedIds, q.nextPacketId, k);
        }
      } else {
        assert Usable(Wrap16(q.nextPacketId + d), q.usedIds);
      }
    }
  }

  // ---------- facts about the queue functions ----------

  lemma {:induction false} EraseIdAt(queue: seq<Entry>, k: nat)
    requires k < |queue| && DistinctIds(queue)
    ensures EraseId(queue, queue[k].id) == queue[..k] + queue[k + 1..]
  {
    DistinctIdsTail(queue);
    if k == 0 {
      EraseIdAbsent(queue[1..], queue[0].id);
      assert queue[..0] + queue[1..] == queue[1..];
    } else {
      EraseIdAt(queue[1..], k - 1);
      assert queue[..k] + queue[k + 1..] == [queue[0]] + (queue[1..][..k - 1] + queue[1..][k..]);
    }
  }

  lemma {:induction false} EraseIdAbsent(queue: seq<Entry>, id: PacketId)
    requires id !in Ids(queue)
    ensures EraseId(queue, id) == queue
  {
    if queue != [] {
      assert queue[0] in queue;
      assert forall e :: e in queue[1..] ==> e in queue;
      EraseIdAbsent(queue[1..], id);
    }
  }

  lemma {:induction false} EraseIdIds(queue: seq<Entry>, id: PacketId)
    ensures Ids(EraseId(queue, id)) == Ids(queue) - {id}
    ensures forall e :: e in EraseId(queue, id) <==> e in queue && e.id != id
  {
    if queue != [] {
      EraseIdIds(queue[1..], id);
      assert forall e :: e in queue <==> e == queue[0] || e in queue[1..];
    }
  }

  /** `ids` names each member of `members` once. */
  predicate Lists(ids: seq<PacketId>, members: set<PacketId>) {
    multiset(ids) == multiset(members)
  }

  lemma ListsMembers(ids: seq<PacketId>, members: set<PacketId>)
    requires Lists(ids, members)
    ensures (set id | id in ids) == members && |ids| == |members|
  {
    assert forall id :: id in ids <==> id in multiset(ids);
    assert |multiset(ids)| == |ids| && |multiset(members)| == |members|;
  }

  lemma ListsAdd(a: set<PacketId>, b: set<PacketId>, c: set<PacketId>, ids: seq<PacketId>, more: seq<PacketId>)
    requires c <= b <= a && Lists(ids, a - b) && Lists(more, b - c)
    ensures Lists(ids + more, a - c)
  {
  }

  lemma {:induction false} DistinctCount(queue: seq<Entry>)
    requires DistinctIds(queue)
    ensures |Ids(queue)| == |queue|
  {
    if queue != [] {
      DistinctIdsTail(queue);
      DistinctCount(queue[1..]);
      assert Ids(queue) == {queue[0].id} + Ids(queue[1..]) by {
        assert forall e :: e in queue <==> e == queue[0] || e in queue[1..];
      }
    }
  }

  lemma {:induction false} BytesAppend(a: seq<Entry>, b: seq<Entry>)
    ensures Bytes(a + b) == Bytes(a) + Bytes(b)
  {
    if a == [] {
      assert a + b == b;
    } else {
      BytesAppend(a[1..], b);
      assert (a + b)[1..] == a[1..] + b;
    }
  }

  lemma {:induction false} DropDueMembers(queue: seq<Entry>, now: nat)
    ensures forall e :: e in DropDue(queue, now) <==> e in queue && !IsDue(e.publish, now)
    ensures Ids(DropDue(queue, now)) <= Ids(queue)
  {
    if queue != [] {
      DropDueMembers(queue[1..], now);
      assert forall e :: e in queue <==> e == queue[0] || e in queue[1..];
    }
  }

  /** A sweep of a queue, by the moments at which its messages expire. */
  ghost predicate SweptBetween(was: seq<Entry>, left: seq<Entry>, first: nat, last: nat) {
    forall e :: e in was ==>
      if e in left then e.publish.expiresAt == None || e.publish.expiresAt.value > first
      else e.publish.expiresAt.Some? && e.publish.expiresAt.value < last + NANOS
  }

  lemma DroppedByClock(queue: seq<Entry>, first: nat, cut: nat, last: nat)
    requires first <= cut <= last
    ensures SweptBetween(queue, DropDue(queue, cut), first, last)
  {
    DropDueMembers(queue, cut);
    forall e | e in queue
      ensures if e in DropDue(queue, cut) then e.publish.expiresAt == None || e.publish.expiresAt.value > first
              else e.publish.expiresAt.Some? && e.publish.expiresAt.value < last + NANOS
    {
      DueByTheSecond(e.publish, cut);
    }
  }

  /** All that is queued, one text after the other. */
  ghost function Text(queue: seq<Entry>): string {
    if queue == [] then [] else queue[0].publish.topic + queue[0].publish.payload + Text(queue[1..])
  }

  lemma {:induction false} BytesAreText(queue: seq<Entry>)
    ensures Bytes(queue) == |Text(queue)|
  {
    if queue != [] {
      BytesAreText(queue[1..]);
    }
  }

  /**
   A message is queued exactly when the topics and payloads in the queue are shorter than the limit or
   nothing is queued, there is quota, and some id other than the last one issued is unused.
   */
  lemma QueuedWhen(q: QosData, publish: Publish, topicOverride: Option<string>, maxBytes: nat)
    requires exists id :: Usable(id, q.usedIds)
    ensures var (q', r) := Queue(q, publish, topicOverride, maxBytes);
      && (r.Some? <==> (q.queue == [] || |Text(q.queue)| < maxBytes) && q.quota != 0
                       && exists id :: Usable(id, q.usedIds) && id != q.nextPacketId)
      && (r == None ==> q' == q)
      && (r.Some? ==> q'.queue == q.queue + [Entry(r.value, publish, topicOverride)] && q'.quota == q.quota - 1)
  {
    BytesAreText(q.queue);
    ClaimIsCyclicallyFirst(q);
  }

  // ---------- facts about the resend loop ----------

  lemma {:induction false} AllowedSnoc(queue: seq<Entry>, e: Entry, verdict: Entry -> bool)
    ensures Allowed(queue + [e], verdict) == Allowed(queue, verdict) + (if verdict(e) then [e] else [])
  {
    if queue == [] {
      assert queue + [e] == [e] && [e][1..] == [];
    } else {
      AllowedSnoc(queue[1..], e, verdict);
      assert (queue + [e])[1..] == queue[1..] + [e];
    }
  }

  /** Deciding one more message keeps it exactly when it is allowed and there is quota left. */
  lemma KeptSnoc(queue: seq<Entry>, e: Entry, quota: int, verdict: Entry -> bool)
    ensures Kept(queue + [e], quota, verdict) == Kept(queue, quota, verdict)
              + (if verdict(e) && |Kept(queue, quota, verdict)| < quota then [e] else [])
  {
    AllowedSnoc(queue, e, verdict);
    var allowed := Allowed(queue, verdict);
    if 0 < quota <= |allowed| {
      assert (allowed + [e])[..quota] == allowed[..quota];
    }
  }

  lemma {:induction false} AllowedMembers(queue: seq<Entry>, verdict: Entry -> bool)
    ensures forall e :: e in Allowed(queue, verdict) <==> e in queue && verdict(e)
  {
    if queue != [] {
      AllowedMembers(queue[1..], verdict);
      assert forall e :: e in queue <==> e == queue[0] || e in queue[1..];
    }
  }

  lemma KeptMembers(queue: seq<Entry>, quota: int, verdict: Entry -> bool)
    ensures forall e :: e in Kept(queue, quota, verdict) ==> e in queue && verdict(e)
    ensures Ids(Kept(queue, quota, verdict)) <= Ids(queue)
  {
    AllowedMembers(queue, verdict);
    assert forall e :: e in Kept(queue, quota, verdict) ==> e in Allowed(queue, verdict);
  }

  lemma IdsSnoc(queue: seq<Entry>, e: Entry)
    ensures Ids(queue + [e]) == Ids(queue) + {e.id}
  {
  }

  /** The ids in use once the first `i` messages were decided. */
  ghost function UsedAfter(queue: seq<Entry>, i: nat, quota: int, verdict: Entry -> bool, used: set<PacketId>): set<PacketId>
    requires i <= |queue|
  {
    used - (Ids(queue[..i]) - Ids(Kept(queue[..i], quota, verdict)))
  }

  /** What deciding message `i` does to the list to send and to the ids in use. */
  lemma DecideNext(queue: seq<Entry>, i: nat, quota: int, verdict: Entry -> bool, used: set<PacketId>)
    requires i < |queue| && DistinctIds(queue)
    ensures var c := Kept(queue[..i], quota, verdict);
      var keep := verdict(queue[i]) && |c| < quota;
      && Kept(queue[..i + 1], quota, verdict) == c + (if keep then [queue[i]] else [])
      && UsedAfter(queue, i + 1, quota, verdict, used)
           == UsedAfter(queue, i, quota, verdict, used) - (if keep then {} else {queue[i].id})
  {
    assert queue[..i + 1] == queue[..i] + [queue[i]];
    KeptSnoc(queue[..i], queue[i], quota, verdict);
    KeptMembers(queue[..i], quota, verdict);
    var c := Kept(queue[..i], quota, verdict);
    IdsSnoc(queue[..i], queue[i]);
    IdsSnoc(c, queue[i]);
    DistinctIdPairs(queue);
    assert queue[i].id !in Ids(queue[..i]);
    assert c + [] == c;
  }

  /** The sweep's effect on quota and used ids does not depend on the order in which ids are freed. */
  lemma {:induction false} FreeIdsAll(q: QosData, ids: seq<PacketId>)
    ensures FreeIds(q, ids) == q.(
      quota := if ids == [] then q.quota else Min(q.quota + |ids|, q.ceiling),
      usedIds := q.usedIds - (set id | id in ids))
    decreases ids
  {
    if ids != [] {
      FreeIdsAll(FreeId(q, ids[0]), ids[1..]);
      assert (set id | id in ids) == {ids[0]} + (set id | id in ids[1..]) by {
        assert forall id :: id in ids <==> id == ids[0] || id in ids[1..];
      }
      assert q.usedIds - (set id | id in ids) == (q.usedIds - {ids[0]}) - (set id | id in ids[1..]);
    }
  }
}
