/**
 The publish queue: one set of nodes that is at once a doubly linked list, a map by packet id
 and a time-ordered expiration index. Nodes that left the queue may still be in the index,
 as the weak pointers of the source are.
 */
module QosQueue {
  import opened Options
  import opened QosState

  class QueuedPublish {
    const publish: Publish
    const packetId: PacketId
    const topicOverride: Option<string>
    var prev: QueuedPublish?
    var next: QueuedPublish?

    constructor (publish: Publish, packetId: PacketId, topicOverride: Option<string>)
      ensures this.publish == publish && this.packetId == packetId && this.topicOverride == topicOverride
      ensures prev == null && next == null
    {
      this.publish := publish;
      this.packetId := packetId;
      this.topicOverride := topicOverride;
      prev := null;
      next := null;
    }

    function Value(): Entry {
      Entry(packetId, publish, topicOverride)
    }
  }

  type Index = seq<(nat, QueuedPublish)>

  ghost function Values(nodes: seq<QueuedPublish>): (s: seq<Entry>)
    ensures |s| == |nodes|
  {
    seq(|nodes|, k requires 0 <= k < |nodes| => nodes[k].Value())
  }

  ghost function WithoutAt(nodes: seq<QueuedPublish>, k: nat): seq<QueuedPublish>
    requires k < |nodes|
  {
    nodes[..k] + nodes[k + 1..]
  }

  ghost predicate Differ(nodes: seq<QueuedPublish>, i: nat, j: nat) {
    i < j < |nodes| ==> nodes[i] != nodes[j]
  }

  /** Stated through Differ, so that pairs are only looked at where a proof asks for it. */
  ghost predicate Distinct(nodes: seq<QueuedPublish>) {
    forall i, j :: Differ(nodes, i, j)
  }

  lemma DistinctPairs(nodes: seq<QueuedPublish>)
    ensures Distinct(nodes) <==> forall i, j :: 0 <= i < j < |nodes| ==> nodes[i] != nodes[j]
  {
    if Distinct(nodes) {
      forall i, j | 0 <= i < j < |nodes| ensures nodes[i] != nodes[j] {
        assert Differ(nodes, i, j);
      }
    } else {
      var i: nat, j: nat :| !Differ(nodes, i, j);
      assert i < j < |nodes| && nodes[i] == nodes[j];
    }
  }

  lemma DistinctWithout(nodes: seq<QueuedPublish>, k: nat)
    requires Distinct(nodes) && k < |nodes|
    ensures Distinct(WithoutAt(nodes, k))
  {
    DistinctPairs(nodes);
    DistinctPairs(WithoutAt(nodes, k));
  }

  /** Walking `next` from `tail` visits `nodes` in order and ends at `head`; `prev` is its inverse. */
  ghost predicate Linked(nodes: seq<QueuedPublish>, tail: QueuedPublish?, head: QueuedPublish?)
    reads nodes
  {
    && Distinct(nodes)
    && (nodes == [] ==> tail == null && head == null)
    && (nodes != [] ==> tail == nodes[0] && head == nodes[|nodes| - 1])
    && (nodes != [] ==> nodes[0].prev == null && nodes[|nodes| - 1].next == null)
    && (forall k {:trigger nodes[k].next} :: 0 <= k < |nodes| - 1 ==> nodes[k].next == nodes[k + 1])
    && (forall k {:trigger nodes[k].prev} :: 1 <= k < |nodes| ==> nodes[k].prev == nodes[k - 1])
  }

  /** The map holds exactly the nodes of the list, each under its own id. */
  ghost predicate Mapped(nodes: seq<QueuedPublish>, queue: map<PacketId, QueuedPublish>) {
    && (forall n :: n in nodes ==> n.packetId in queue && queue[n.packetId] == n)
    && (forall id :: id in queue ==> queue[id] in nodes && queue[id].packetId == id)
  }

  ghost predicate Ordered(index: Index) {
    forall i, j :: 0 <= i < j < |index| ==> index[i].0 <= index[j].0
  }

  ghost predicate Keyed(index: Index) {
    forall x :: x in index ==> x.1.publish.expiresAt.Some? && x.0 == ExpiryKey(x.1.publish.expiresAt.value)
  }

  /** No queued node that can expire is missing from the index. */
  ghost predicate Covers(index: Index, nodes: seq<QueuedPublish>) {
    forall n :: n in nodes && n.publish.expiresAt.Some? ==>
      (ExpiryKey(n.publish.expiresAt.value), n) in index
  }

  class QoSPublishQueue {
    var head: QueuedPublish?
    var tail: QueuedPublish?
    var queue: map<PacketId, QueuedPublish>
    var queueExpirations: Index
    var qosQueueBytes: int

    /** The nodes met when walking `next` from tail to head. */
    ghost var nodes: seq<QueuedPublish>

    ghost function Contents(): seq<Entry>
      reads this
    {
      Values(nodes)
    }

    /** List, map and byte count agree. */
    ghost predicate InStep()
      reads this, nodes
    {
      && Linked(nodes, tail, head)
      && Mapped(nodes, queue)
      && qosQueueBytes == Bytes(Contents())
    }

    /** ... and the expiration index with them. */
    ghost predicate Valid()
      reads this, nodes
    {
      && InStep()
      && Ordered(queueExpirations) && Keyed(queueExpirations) && Covers(queueExpirations, nodes)
    }

    constructor ()
      ensures Valid() && nodes == [] && Contents() == []
    {
      head, tail := null, null;
      queue, queueExpirations, qosQueueBytes := map[], [], 0;
      nodes := [];
    }

    method AddToHeadOfLinkedList(qp: QueuedPublish)
      requires Linked(nodes, tail, head) && qp !in nodes && qp.prev == null && qp.next == null
      modifies this`head, this`tail, this`nodes, nodes, qp
      ensures nodes == old(nodes) + [qp] && Linked(nodes, tail, head)
    {
      DistinctPairs(nodes);
      DistinctPairs(nodes + [qp]);
      qp.prev := head;
      if head != null {
        head.next := qp;
      }
      head := qp;
      if tail == null {
        tail := qp;
      }
      nodes := nodes + [qp];
    }

    /** A multimap insertion: equal keys, which are moments of expiry cut to whole seconds, stay in order of insertion. */
    static method AddToExpirationQueue(index: Index, qp: QueuedPublish, ghost others: seq<QueuedPublish>) returns (r: Index)
      requires Ordered(index) && Keyed(index) && Covers(index, others)
      ensures Ordered(r) && Keyed(r) && Covers(r, others + [qp])
      ensures AddedToIndex(index, qp, r)
    {
      if qp.publish.expiresAt == None {
        return index;
      }
      var when := ExpiryKey(qp.publish.expiresAt.value);
      var at := |index|;
      while at > 0 && index[at - 1].0 > when
        invariant 0 <= at <= |index|
        invariant at < |index| ==> index[at].0 > when
      {
        at := at - 1;
      }
      IndexInsert(index, at, when, qp, others);
      AddedAt(index, at, qp);
      r := Inserted(index, at, (when, qp));
    }

    /** The steps both overloads of queuePublish share, for a node that was just made. */
    method LinkIn(qp: QueuedPublish)
      requires Linked(nodes, tail, head) && qp !in nodes && qp.prev == null && qp.next == null
      requires Ordered(queueExpirations) && Keyed(queueExpirations) && Covers(queueExpirations, nodes)
      modifies this, nodes, qp
      ensures nodes == old(nodes) + [qp] && Linked(nodes, tail, head)
      ensures Ordered(queueExpirations) && Keyed(queueExpirations) && Covers(queueExpirations, nodes)
      ensures queue == old(queue)[qp.packetId := qp]
      ensures qosQueueBytes == old(qosQueueBytes) + Footprint(qp.publish)
    {
      ghost var others := nodes;
      AddToHeadOfLinkedList(qp);
      qosQueueBytes := qosQueueBytes + (|qp.publish.topic| + |qp.publish.payload|);
      queueExpirations := AddToExpirationQueue(queueExpirations, qp, others);
      queue := queue[qp.packetId := qp];
    }

    /** Queueing appends one entry, under an id that is not queued. */
    method QueuePublish(publish: Publish, id: PacketId, topicOverride: Option<string>) returns (ghost added: QueuedPublish)
      requires Valid() && id !in queue
      modifies this, nodes
      ensures Valid()
      ensures Contents() == old(Contents()) + [Entry(id, publish, topicOverride)]
      ensures nodes == old(nodes) + [added] && fresh(added)
    {
      var qp := new QueuedPublish(publish, id, topicOverride);
      added := qp;
      QueuedViews(nodes, queue, qp);
      LinkIn(qp);
    }

    /** Takes one node out of the map and relinks its neighbours; the byte count is left alone. */
    method EraseFromMapAndRelinkList(qp: QueuedPublish, ghost k: nat)
      requires Linked(nodes, tail, head) && k < |nodes| && nodes[k] == qp
      modifies this`head, this`tail, this`queue, this`nodes, nodes
      ensures nodes == WithoutAt(old(nodes), k)
      ensures queue == old(queue) - {qp.packetId}
      ensures Linked(nodes, tail, head)
    {
      DistinctWithout(nodes, k);
      assert k > 0 ==> qp.prev == nodes[k - 1] && nodes[k - 1] in nodes;
      assert k < |nodes| - 1 ==> qp.next == nodes[k + 1] && nodes[k + 1] in nodes;
      assert forall j :: 0 <= j < |nodes| ==>
        && (j == k || nodes[j] != nodes[k])
        && (k == 0 || j == k - 1 || nodes[j] != nodes[k - 1])
        && (k + 1 >= |nodes| || j == k + 1 || nodes[j] != nodes[k + 1])
      by { DistinctPairs(nodes); }
      var prev := qp.prev;
      if prev != null {
        prev.next := qp.next;
      }
      if head == qp {
        head := qp.prev;
      }
      var next := qp.next;
      if next != null {
        next.prev := qp.prev;
      }
      if tail == qp {
        tail := qp.next;
      }
      queue := queue - {qp.packetId};
      nodes := WithoutAt(nodes, k);
    }

    /** Takes a queued node out of list and map and its bytes off the count; the index keeps its entry. */
    method Remove(qp: QueuedPublish) returns (ghost at: nat)
      requires InStep() && qp.packetId in queue && queue[qp.packetId] == qp
      modifies this`head, this`tail, this`queue, this`nodes, this`qosQueueBytes, nodes
      ensures InStep()
      ensures at < |old(nodes)| && old(nodes)[at] == qp && nodes == WithoutAt(old(nodes), at)
      ensures Contents() == EraseId(old(Contents()), qp.packetId)
    {
      at :| 0 <= at < |nodes| && nodes[at] == qp;
      ErasedViews(nodes, queue, at);
      qosQueueBytes := qosQueueBytes - (|qp.publish.topic| + |qp.publish.payload|);
      EraseFromMapAndRelinkList(qp, at);
    }

    /** Erasing takes out the entry with this id, if any, and nothing else; all views stay in step. */
    method Erase(packetId: PacketId) returns (result: bool, ghost at: nat)
      requires Valid()
      modifies this, nodes
      ensures Valid()
      ensures result == (packetId in Ids(old(Contents())))
      ensures Contents() == EraseId(old(Contents()), packetId)
      ensures !result ==> nodes == old(nodes)
      ensures result ==> at < |old(nodes)| && old(nodes)[at].packetId == packetId && nodes == WithoutAt(old(nodes), at)
    {
      IdsAreKeys(nodes, queue);
      result, at := false, 0;
      if packetId in queue {
        result := true;
        at := Remove(queue[packetId]);
      } else {
        EraseIdAbsent(Contents(), packetId);
      }
    }

    /** One round of the sweep: takes the first entry off the index, and its node out of the queue if it is still there. */
    method PopExpiration() returns (removed: seq<PacketId>)
      requires Valid() && |queueExpirations| > 0
      modifies this, nodes
      ensures Valid() && queueExpirations == old(queueExpirations)[1..]
      ensures nodes == Without(old(nodes), {old(queueExpirations)[0].1})
      ensures Lists(removed, Ids(old(Contents())) - Ids(Contents()))
      ensures Ids(Contents()) <= Ids(old(Contents()))
    {
      var qp := queueExpirations[0].1;
      PopViews(nodes, queue, queueExpirations);
      queueExpirations := queueExpirations[1..];
      removed := [];
      if qp.packetId in queue && queue[qp.packetId] == qp {
        removed := [qp.packetId];
        ghost var at := Remove(qp);
      }
    }

    /**
     The sweep removes exactly the entries that are due at one moment `cut` between its first and
     its last look at the clock, and keeps the order of the rest. An index entry whose node has
     left the queue removes nothing, also when another message uses its id by now. So what goes
     had less than a second to live at its last look, and what stays was alive at its first.
     */
    method ClearExpiredMessages(clock: nat -> nat) returns (removed: seq<PacketId>, ghost cut: nat, ghost readings: nat)
      requires Valid()
      requires forall i: nat, j: nat :: i <= j ==> clock(i) <= clock(j)
      modifies this, nodes
      ensures Valid()
      ensures clock(0) <= cut <= clock(readings)
      ensures Contents() == DropDue(old(Contents()), cut)
      ensures SweptBetween(old(Contents()), Contents(), clock(0), clock(readings))
      ensures Lists(removed, Ids(old(Contents())) - Ids(Contents()))
      ensures forall n :: n in nodes ==> n in old(nodes)
    {
      removed, cut, readings := [], clock(0), 0;
      ghost var was, index, done: set<QueuedPublish> := nodes, queueExpirations, {};
      SweepingStart(was, index, cut);
      if |queueExpirations| > 0 && queueExpirations[0].0 <= clock(0) {
        var reading := 0;
        while |queueExpirations| > 0
          invariant Valid()
          invariant Sweeping(was, nodes, index, queueExpirations, done, cut, removed)
          invariant clock(0) <= cut <= clock(reading)
          decreases |queueExpirations|
        {
          reading := reading + 1;
          var cur := queueExpirations[0];
          if cur.0 > clock(reading) {
            break;
          }
          ghost var before, rest := nodes, queueExpirations;
          assert forall k :: 0 <= k < |nodes| ==> nodes[k] in old(nodes);
          var gone := PopExpiration();
          SweepingStep(was, before, nodes, index, rest, done, cut, removed, gone);
          removed := removed + gone;
          done := done + {cur.1};
          cut := if cut < cur.0 then cur.0 else cut;
        }
        readings := reading;
      }
      SweptAll(was, index, queueExpirations, done, cut);
      LeftIsDropDue(was, done, cut);
      DroppedByClock(Values(was), clock(0), cut, clock(readings));
    }
  }

  // ---------- pure facts about nodes, map, index and values ----------

  function Inserted(index: Index, at: nat, x: (nat, QueuedPublish)): Index
    requires at <= |index|
  {
    index[..at] + [x] + index[at..]
  }

  lemma IndexInsert(index: Index, at: nat, when: nat, qp: QueuedPublish, others: seq<QueuedPublish>)
    requires Ordered(index) && Keyed(index) && Covers(index, others) && at <= |index|
    requires at < |index| ==> index[at].0 > when
    requires at > 0 ==> index[at - 1].0 <= when
    requires qp.publish.expiresAt.Some? && when == ExpiryKey(qp.publish.expiresAt.value)
    ensures var r := Inserted(index, at, (when, qp)); Ordered(r) && Keyed(r) && Covers(r, others + [qp])
  {
    InsertedOrdered(index, at, (when, qp));
    InsertedMembers(index, at, (when, qp));
  }

  /** The index with one more entry, if the node can expire: the node, under the second in which it does. */
  ghost predicate AddedToIndex(index: Index, qp: QueuedPublish, r: Index) {
    match qp.publish.expiresAt
    case None => r == index
    case Some(at) => exists k: nat :: k <= |index| && r == index[..k] + [(at - at % NANOS, qp)] + index[k..]
                                         && (k < |index| ==> index[k].0 > at - at % NANOS)
  }

  lemma AddedAt(index: Index, at: nat, qp: QueuedPublish)
    requires qp.publish.expiresAt.Some? && at <= |index|
    requires at < |index| ==> index[at].0 > ExpiryKey(qp.publish.expiresAt.value)
    ensures AddedToIndex(index, qp, Inserted(index, at, (ExpiryKey(qp.publish.expiresAt.value), qp)))
  {
    KeyTruncates(qp.publish.expiresAt.value);
  }

  lemma InsertedOrdered(index: Index, at: nat, x: (nat, QueuedPublish))
    requires Ordered(index) && at <= |index|
    requires at < |index| ==> index[at].0 > x.0
    requires at > 0 ==> index[at - 1].0 <= x.0
    ensures Ordered(Inserted(index, at, x))
  {
  }

  lemma InsertedMembers(index: Index, at: nat, x: (nat, QueuedPublish))
    requires at <= |index|
    ensures forall y :: y in Inserted(index, at, x) <==> y in index || y == x
  {
  }

  /** What linking in a new node does to the map and the values. */
  lemma QueuedViews(nodes: seq<QueuedPublish>, queue: map<PacketId, QueuedPublish>, qp: QueuedPublish)
    requires Mapped(nodes, queue) && qp.packetId !in queue
    ensures var r := nodes + [qp];
      && Mapped(r, queue[qp.packetId := qp])
      && Values(r) == Values(nodes) + [qp.Value()]
      && Bytes(Values(r)) == Bytes(Values(nodes)) + Footprint(qp.publish)
  {
    assert Values(nodes + [qp]) == Values(nodes) + [qp.Value()];
    BytesAppend(Values(nodes), [qp.Value()]);
  }

  lemma MappedWithout(nodes: seq<QueuedPublish>, queue: map<PacketId, QueuedPublish>, k: nat)
    requires Mapped(nodes, queue) && k < |nodes|
    requires Distinct(nodes)
    ensures Mapped(WithoutAt(nodes, k), queue - {nodes[k].packetId})
    ensures forall n :: n in WithoutAt(nodes, k) <==> n in nodes && n != nodes[k]
  {
    DistinctPairs(nodes);
    var r := WithoutAt(nodes, k);
    forall n | n in nodes && n != nodes[k] ensures n in r {
      var i :| 0 <= i < |nodes| && nodes[i] == n;
      assert r[if i < k then i else i - 1] == n;
    }
  }

  lemma IdsAreKeys(nodes: seq<QueuedPublish>, queue: map<PacketId, QueuedPublish>)
    requires Mapped(nodes, queue)
    requires Distinct(nodes)
    ensures DistinctIds(Values(nodes))
    ensures Ids(Values(nodes)) == queue.Keys
  {
    DistinctPairs(nodes);
    forall i, j | 0 <= i < j < |nodes| ensures nodes[i].packetId != nodes[j].packetId {
      assert nodes[i] in nodes && nodes[j] in nodes;
    }
    DistinctIdPairs(Values(nodes));
    forall id | id in queue.Keys ensures id in Ids(Values(nodes)) {
      var k :| 0 <= k < |nodes| && nodes[k] == queue[id];
      assert Values(nodes)[k] in Values(nodes);
    }
  }

  /** What taking node `k` out does to the map, the members and the values. */
  lemma ErasedViews(nodes: seq<QueuedPublish>, queue: map<PacketId, QueuedPublish>, k: nat)
    requires Distinct(nodes) && Mapped(nodes, queue) && k < |nodes|
    ensures var r := WithoutAt(nodes, k);
      && Mapped(r, queue - {nodes[k].packetId})
      && (forall n :: n in r <==> n in nodes && n != nodes[k])
      && Values(r) == EraseId(Values(nodes), nodes[k].packetId)
      && Bytes(Values(nodes)) == Footprint(nodes[k].publish) + Bytes(Values(r))
  {
    IdsAreKeys(nodes, queue);
    MappedWithout(nodes, queue, k);
    ErasedValues(nodes, k);
  }

  // ---------- the sweep ----------

  /** The nodes that are not in `done`, in order. */
  ghost function Without(nodes: seq<QueuedPublish>, done: set<QueuedPublish>): seq<QueuedPublish> {
    if nodes == [] then []
    else (if nodes[0] in done then [] else [nodes[0]]) + Without(nodes[1..], done)
  }

  lemma {:induction false} WithoutNone(nodes: seq<QueuedPublish>)
    ensures Without(nodes, {}) == nodes
  {
    if nodes != [] { WithoutNone(nodes[1..]); }
  }

  lemma {:induction false} WithoutMore(nodes: seq<QueuedPublish>, done: set<QueuedPublish>, n: QueuedPublish)
    ensures Without(nodes, done + {n}) == Without(Without(nodes, done), {n})
  {
    if nodes != [] {
      WithoutMore(nodes[1..], done, n);
      var rest := Without(nodes[1..], done);
      assert [] + rest == rest && ([nodes[0]] + rest)[1..] == rest;
    }
  }

  lemma {:induction false} WithoutAbsent(nodes: seq<QueuedPublish>, n: QueuedPublish)
    requires n !in nodes
    ensures Without(nodes, {n}) == nodes
  {
    if nodes != [] { WithoutAbsent(nodes[1..], n); }
  }

  lemma {:induction false} WithoutOne(nodes: seq<QueuedPublish>, n: QueuedPublish)
    requires Distinct(nodes)
    ensures n !in nodes ==> Without(nodes, {n}) == nodes
    ensures forall k :: 0 <= k < |nodes| && nodes[k] == n ==> Without(nodes, {n}) == WithoutAt(nodes, k)
  {
    DistinctPairs(nodes);
    if n !in nodes {
      WithoutAbsent(nodes, n);
    } else if nodes[0] == n {
      WithoutAbsent(nodes[1..], n);
    } else {
      DistinctPairs(nodes[1..]);
      WithoutOne(nodes[1..], n);
      forall k | 0 <= k < |nodes| && nodes[k] == n ensures Without(nodes, {n}) == WithoutAt(nodes, k) {
        assert nodes[1..][k - 1] == n;
        assert WithoutAt(nodes, k) == [nodes[0]] + WithoutAt(nodes[1..], k - 1);
      }
    }
  }

  /** What one round of the sweep needs to know about nodes, map and index. */
  lemma PopViews(nodes: seq<QueuedPublish>, queue: map<PacketId, QueuedPublish>, index: Index)
    requires Distinct(nodes) && Mapped(nodes, queue)
    requires |index| > 0 && Ordered(index) && Keyed(index) && Covers(index, nodes)
    ensures var qp := index[0].1; var r := Without(nodes, {qp});
      && Ordered(index[1..]) && Keyed(index[1..]) && Covers(index[1..], r)
      && (if qp.packetId in queue && queue[qp.packetId] == qp
          then forall k :: 0 <= k < |nodes| && nodes[k] == qp ==> r == WithoutAt(nodes, k)
          else r == nodes)
    ensures var qp := index[0].1; var ids := Ids(Values(nodes)); var left := Ids(EraseId(Values(nodes), qp.packetId));
      if qp.packetId in queue && queue[qp.packetId] == qp
      then left <= ids && Lists([qp.packetId], ids - left)
      else Lists([], ids - ids)
  {
    PopIndex(nodes, index);
    PopIds(nodes, queue, index[0].1);
    WithoutOne(nodes, index[0].1);
  }

  /** What taking the first entry off the index, and its node out of the queue, leaves of the index. */
  lemma PopIndex(nodes: seq<QueuedPublish>, index: Index)
    requires |index| > 0 && Ordered(index) && Keyed(index) && Covers(index, nodes)
    ensures Ordered(index[1..]) && Keyed(index[1..]) && Covers(index[1..], Without(nodes, {index[0].1}))
  {
  }

  /** ... and of the ids. */
  lemma PopIds(nodes: seq<QueuedPublish>, queue: map<PacketId, QueuedPublish>, qp: QueuedPublish)
    requires Distinct(nodes) && Mapped(nodes, queue)
    ensures qp in nodes <==> qp.packetId in queue && queue[qp.packetId] == qp
    ensures var ids := Ids(Values(nodes)); var left := Ids(EraseId(Values(nodes), qp.packetId));
      && Lists([], ids - ids)
      && (qp in nodes ==> left <= ids && Lists([qp.packetId], ids - left))
  {
    var ids := Ids(Values(nodes));
    assert ids - ids == {};
    EraseIdIds(Values(nodes), qp.packetId);
    IdsAreKeys(nodes, queue);
    assert qp in nodes ==> ids - (ids - {qp.packetId}) == {qp.packetId};
  }

  /** Every index entry is still in the index or its node was handled, and only due nodes were handled. */
  ghost predicate Swept(index: Index, rest: Index, done: set<QueuedPublish>, cut: nat) {
    && (forall x :: x in index ==> x in rest || x.1 in done)
    && (forall n :: n in done ==> IsDue(n.publish, cut))
  }

  /** Part way through a sweep of `was`, that left `nodes` and the index entries `rest`. */
  ghost predicate Sweeping(was: seq<QueuedPublish>, nodes: seq<QueuedPublish>, index: Index, rest: Index,
                           done: set<QueuedPublish>, cut: nat, removed: seq<PacketId>)
  {
    && nodes == Without(was, done) && (forall n :: n in nodes ==> n in was)
    && Swept(index, rest, done, cut)
    && Ids(Values(nodes)) <= Ids(Values(was))
    && Lists(removed, Ids(Values(was)) - Ids(Values(nodes)))
  }

  lemma SweepingStart(was: seq<QueuedPublish>, index: Index, cut: nat)
    ensures Sweeping(was, was, index, index, {}, cut, [])
  {
    WithoutNone(was);
    assert Ids(Values(was)) - Ids(Values(was)) == {};
  }

  lemma SweepingStep(was: seq<QueuedPublish>, before: seq<QueuedPublish>, nodes: seq<QueuedPublish>, index: Index, rest: Index,
                     done: set<QueuedPublish>, cut: nat, removed: seq<PacketId>, gone: seq<PacketId>)
    requires Sweeping(was, before, index, rest, done, cut, removed) && |rest| > 0 && Keyed(rest)
    requires nodes == Without(before, {rest[0].1}) && Ids(Values(nodes)) <= Ids(Values(before))
    requires Lists(gone, Ids(Values(before)) - Ids(Values(nodes)))
    ensures Sweeping(was, nodes, index, rest[1..], done + {rest[0].1}, if cut < rest[0].0 then rest[0].0 else cut, removed + gone)
  {
    assert rest[0] in rest && rest == [rest[0]] + rest[1..];
    WithoutMore(was, done, rest[0].1);
    forall n | n in nodes ensures n in was {
      WithoutMember(before, {rest[0].1}, n);
    }
    ListsAdd(Ids(Values(was)), Ids(Values(before)), Ids(Values(nodes)), removed, gone);
  }

  lemma SweptAll(nodes: seq<QueuedPublish>, index: Index, rest: Index, done: set<QueuedPublish>, cut: nat)
    requires Covers(index, nodes) && Swept(index, rest, done, cut)
    requires Ordered(rest) && (rest == [] || rest[0].0 > cut)
    ensures forall n :: n in nodes ==> (n in done <==> IsDue(n.publish, cut))
  {
  }

  lemma {:induction false} WithoutMember(nodes: seq<QueuedPublish>, done: set<QueuedPublish>, n: QueuedPublish)
    requires n in Without(nodes, done)
    ensures n in nodes && n !in done
  {
    if n != nodes[0] || nodes[0] in done {
      WithoutMember(nodes[1..], done, n);
    }
  }

  lemma {:induction false} LeftIsDropDue(nodes: seq<QueuedPublish>, done: set<QueuedPublish>, cut: nat)
    requires forall n :: n in nodes ==> (n in done <==> IsDue(n.publish, cut))
    ensures Values(Without(nodes, done)) == DropDue(Values(nodes), cut)
    ensures forall n :: n in Without(nodes, done) ==> n in nodes
  {
    if nodes != [] {
      LeftIsDropDue(nodes[1..], done, cut);
      assert nodes[0] in nodes;
      assert Values(nodes)[1..] == Values(nodes[1..]);
      var rest := Without(nodes[1..], done);
      assert Values([nodes[0]] + rest) == [nodes[0].Value()] + Values(rest);
      assert [] + rest == rest;
    }
  }

  lemma ErasedValues(nodes: seq<QueuedPublish>, k: nat)
    requires k < |nodes| && DistinctIds(Values(nodes))
    ensures Values(WithoutAt(nodes, k)) == EraseId(Values(nodes), nodes[k].packetId)
    ensures Bytes(Values(nodes)) == Footprint(nodes[k].publish) + Bytes(Values(WithoutAt(nodes, k)))
  {
    var v := Values(nodes);
    EraseIdAt(v, k);
    assert Values(WithoutAt(nodes, k)) == v[..k] + v[k + 1..];
    BytesAppend(v[..k], v[k + 1..]);
    BytesAppend(v[..k], v[k..]);
    assert v == v[..k] + v[k..];
  }
}
