/**
 Which ids are in use: the invariant of a session's QoS state, and what each locked section does to it.
 */
module QosAccounting {
  import opened Options
  import opened QosState

  predicate SomeIdLeft(used: set<PacketId>) {
    exists id: PacketId :: Usable(id, used)
  }

  /**
   The ids in use are exactly the disjoint union of the queued ones and the ones whose QoS 2
   handshake is past PUBREC, and the quota lies between 0 and its ceiling.
   */
  ghost predicate Accounted(q: QosData) {
    && DistinctIds(q.queue)
    && q.usedIds == Ids(q.queue) + q.outgoing
    && Ids(q.queue) !! q.outgoing
    && 0 !in q.usedIds
    && 0 <= q.quota <= q.ceiling
  }

  lemma {:induction false} DistinctErase(queue: seq<Entry>, id: PacketId)
    requires DistinctIds(queue)
    ensures DistinctIds(EraseId(queue, id))
  {
    if queue != [] {
      DistinctIdsTail(queue);
      DistinctErase(queue[1..], id);
      EraseIdIds(queue[1..], id);
      var r := EraseId(queue, id);
      if queue[0].id != id {
        assert r[1..] == EraseId(queue[1..], id);
        DistinctIdsTail(r);
      }
    }
  }

  lemma {:induction false} DistinctDropDue(queue: seq<Entry>, cut: nat)
    requires DistinctIds(queue)
    ensures DistinctIds(DropDue(queue, cut))
  {
    if queue != [] {
      DistinctIdsTail(queue);
      DistinctDropDue(queue[1..], cut);
      DropDueMembers(queue[1..], cut);
      var r := DropDue(queue, cut);
      if IsDue(queue[0].publish, cut) {
        assert r == DropDue(queue[1..], cut);
      } else {
        assert r[1..] == DropDue(queue[1..], cut);
        DistinctIdsTail(r);
      }
    }
  }

  lemma {:induction false} DistinctAllowed(queue: seq<Entry>, verdict: Entry -> bool)
    requires DistinctIds(queue)
    ensures DistinctIds(Allowed(queue, verdict))
  {
    if queue != [] {
      DistinctIdsTail(queue);
      DistinctAllowed(queue[1..], verdict);
      AllowedMembers(queue[1..], verdict);
      var r := Allowed(queue, verdict);
      if verdict(queue[0]) {
        assert r[1..] == Allowed(queue[1..], verdict);
        DistinctIdsTail(r);
      } else {
        assert r == Allowed(queue[1..], verdict);
      }
    }
  }

  lemma DistinctKept(queue: seq<Entry>, quota: int, verdict: Entry -> bool)
    requires DistinctIds(queue)
    ensures DistinctIds(Kept(queue, quota, verdict))
  {
    DistinctAllowed(queue, verdict);
    DistinctIdPairs(Allowed(queue, verdict));
    DistinctIdPairs(Kept(queue, quota, verdict));
  }

  lemma DistinctSnoc(queue: seq<Entry>, e: Entry)
    requires DistinctIds(queue) && e.id !in Ids(queue)
    ensures DistinctIds(queue + [e])
  {
    DistinctIdPairs(queue);
    DistinctIdPairs(queue + [e]);
    forall i, j | 0 <= i < j < |queue + [e]| ensures (queue + [e])[i].id != (queue + [e])[j].id {
      if j == |queue| { assert queue[i] in queue; }
    }
  }

  lemma AccountedQueue(q: QosData, publish: Publish, topicOverride: Option<string>, maxBytes: nat)
    requires Accounted(q) && (q.quota != 0 ==> SomeIdLeft(q.usedIds))
    ensures var (q', id) := Queue(q, publish, topicOverride, maxBytes);
      && Accounted(q')
      && (id == None ==> q' == q)
      && (id.Some? ==> q.quota > 0 && Usable(id.value, q.usedIds)
                       && q' == q.(nextPacketId := id.value, quota := q.quota - 1, usedIds := q.usedIds + {id.value},
                                   queue := q.queue + [Entry(id.value, publish, topicOverride)]))
  {
    if q.quota != 0 {
      ClaimIsCyclicallyFirst(q);
      var (_, id) := Queue(q, publish, topicOverride, maxBytes);
      if id.Some? {
        DistinctSnoc(q.queue, Entry(id.value, publish, topicOverride));
        IdsSnoc(q.queue, Entry(id.value, publish, topicOverride));
      }
    }
  }

  lemma AccountedClear(q: QosData, id: PacketId)
    requires Accounted(q)
    ensures DistinctIds(EraseId(q.queue, id)) && Ids(EraseId(q.queue, id)) == Ids(q.queue) - {id}
    ensures id !in Ids(q.queue) ==> EraseId(q.queue, id) == q.queue
  {
    DistinctErase(q.queue, id);
    EraseIdIds(q.queue, id);
    if id !in Ids(q.queue) {
      EraseIdAbsent(q.queue, id);
    }
  }

  lemma AccountedExpire(q: QosData, cut: nat)
    requires Accounted(q)
    ensures Accounted(ExpireAt(q, cut)) && Ids(DropDue(q.queue, cut)) <= Ids(q.queue)
  {
    DistinctDropDue(q.queue, cut);
    DropDueMembers(q.queue, cut);
  }

  lemma AccountedResend(q: QosData, verdict: Entry -> bool)
    requires Accounted(q)
    ensures Accounted(QosState.Resend(q, verdict))
  {
    DistinctKept(q.queue, q.quota, verdict);
    KeptMembers(q.queue, q.quota, verdict);
  }
}

/**
 What every run of a session keeps. A run interleaves publishing threads, the peer's
 acknowledgements, expiry, disconnects, reconnects and resends in any order; each event is one
 locked section.
 */
module QosInvariants {
  import opened Options
  import opened QosState
  import opened QosAccounting

  datatype Event =
    | Publish(publish: Publish, topicOverride: Option<string>, maxBytes: nat, written: bool)
    | PubAck(id: PacketId)
    | PubRec(id: PacketId, isError: bool)
    | Release(id: PacketId)    // the second locked section of handlePubRec
    | PubComp(id: PacketId)
    | Expire(cut: nat)
    | Attach
    | Connect(receiveMax: PacketId)
    | Resend(verdict: Entry -> bool)
    | Reconnect(receiveMax: PacketId, verdict: Entry -> bool)  // Connect and Resend with nothing in between
    | Disconnect

  /** Between being off-line and on-line, the session has its new client, but its counters are the old ones. */
  datatype Status = Offline | Attached | Online

  /** A session with what an observer of the current connection sees. */
  datatype Session = Session(
    q: QosData,
    releasing: set<PacketId>,  // ids between the two locked sections of handlePubRec
    status: Status,
    sent: set<PacketId>,       // sent, or about to be, on this connection, and not acknowledged to the end
    early: set<PacketId>,      // those of them that were queued before the counters were reset, and not resent
    unsent: set<PacketId>,     // queued since the counters were reset, but not sent on this connection
    carriedDone: nat,          // how many exchanges from before that were completed
    swept: nat,                // how many messages were swept that are not in `unsent`
    limit: int)                // the receive maximum of the last connect

  function Fresh(maxPending: PacketId): Session {
    Session(QosData({}, [], 0, maxPending, 0xFFFF, {}, {}), {}, Offline, {}, {}, {}, 0, 0, maxPending)
  }

  /** The session when `id` was acknowledged to the end, with the queue state `q`. */
  function Acknowledged(s: Session, q: QosData, id: PacketId): Session {
    s.(q := q, sent := s.sent - {id}, early := s.early - {id},
       carriedDone := if id in s.sent && id !in s.early then s.carriedDone else s.carriedDone + 1)
  }

  /** An acknowledgement of something that is no longer queued; a message that was dropped is settled by it. */
  function Settled(s: Session, id: PacketId): Session {
    if id in s.q.usedIds then s else s.(sent := s.sent - {id}, early := s.early - {id})
  }

  /** What was dropped may have been sent before. */
  function Resent(s: Session, verdict: Entry -> bool): Session {
    var q := QosState.Resend(s.q, verdict);
    s.(q := q, sent := s.sent + Ids(q.queue), early := s.early - Ids(q.queue), unsent := s.unsent - Ids(s.q.queue))
  }

  function Swept(s: Session, cut: nat): Session {
    var gone := Ids(s.q.queue) - Ids(DropDue(s.q.queue, cut));
    s.(q := ExpireAt(s.q, cut), unsent := s.unsent - gone,
       swept := if s.status.Online? then s.swept + |gone - s.unsent| else s.swept)
  }

  function Connected(s: Session, receiveMax: PacketId): Session {
    Session(QosState.Connect(s.q, receiveMax), s.releasing, Online, s.sent, s.sent, {}, 0, 0, receiveMax)
  }

  /** A message queued under `id`; while the counters are the old ones, what is not sent is as if it were from before. */
  function Published(s: Session, q: QosData, id: PacketId, written: bool): Session {
    s.(q := q, sent := if !s.status.Offline? && written then s.sent + {id} else s.sent,
       unsent := if s.status.Online? && !written then s.unsent + {id} else s.unsent)
  }

  function Apply(s: Session, ev: Event): Session {
    match ev
    case Publish(publish, topicOverride, maxBytes, written) =>
      var (q, id) := Queue(s.q, publish, topicOverride, maxBytes);
      if id.Some? then Published(s, q, id.value, written) else s.(q := q)
    case PubAck(id) =>
      if id in Ids(s.q.queue) then Acknowledged(s, Clear(s.q, id, true), id) else Settled(s, id)
    case PubRec(id, isError) =>
      if !isError then s.(q := Clear(s.q, id, false), releasing := s.releasing + {id})
      else if id in Ids(s.q.queue) then Acknowledged(s, Clear(s.q, id, true), id) else Settled(s, id)
    case Release(id) => s.(q := AddOutgoing(s.q, id), releasing := s.releasing - {id})
    case PubComp(id) =>
      if id in s.q.outgoing then Acknowledged(s, QosState.PubComp(s.q, id), id) else s
    case Expire(cut) => Swept(s, cut)
    case Attach => s.(status := Attached)
    case Connect(receiveMax) => Connected(s, receiveMax)
    case Resend(verdict) => Resent(s, verdict)
    case Reconnect(receiveMax, verdict) => Resent(Connected(s, receiveMax), verdict)
    case Disconnect => s.(status := Offline, sent := {}, early := {}, unsent := {}, carriedDone := 0, swept := 0)
  }

  /**
   When an event can happen: an id is left to claim, and the peer acknowledges nothing that was not
   sent to it, and with PUBREC only ids that are in use. One thread handles its acknowledgements, so
   that a PUBCOMP waits for both halves of the PUBREC. The sweep is for off-line clients, but it is
   done by a thread that looked for the client before it had the lock, so that by then the session may
   be on-line.
   */
  predicate Possible(s: Session, ev: Event) {
    match ev
    case Publish(_, _, _, _) => s.q.quota != 0 ==> SomeIdLeft(s.q.usedIds)
    case PubAck(id) => s.status.Online? && (id in Ids(s.q.queue) ==> id in s.sent)
    case PubRec(id, isError) => s.status.Online? && (id in Ids(s.q.queue) ==> id in s.sent) && (!isError ==> id in s.q.usedIds)
    case Release(id) => id in s.releasing
    case PubComp(id) => s.status.Online? && id !in s.releasing
    case Expire(_) => true
    case Attach => s.status.Offline?
    case Connect(_) => !s.status.Online?
    case Resend(_) => s.status.Online?
    case Reconnect(_, _) => !s.status.Online?
    case Disconnect => !s.status.Offline?
  }

  function Run(s: Session, events: seq<Event>): Session
    decreases |events|
  {
    if events == [] then s else Apply(Run(s, events[..|events| - 1]), events[|events| - 1])
  }

  ghost predicate Allows(s: Session, events: seq<Event>)
    decreases |events|
  {
    events == [] ||
    (Allows(s, events[..|events| - 1]) && Possible(Run(s, events[..|events| - 1]), events[|events| - 1]))
  }

  // ---------- the ids in use ----------

  /** The accounting with the ids past PUBREC in one place: the outgoing ones, and those about to be. */
  function Whole(s: Session): QosData {
    s.q.(outgoing := s.q.outgoing + s.releasing)
  }

  ghost predicate AllAccounted(s: Session) {
    Accounted(Whole(s))
  }

  /** No event breaks the accounting. */
  lemma AccountedStep(s: Session, ev: Event)
    requires AllAccounted(s) && Possible(s, ev)
    ensures AllAccounted(Apply(s, ev))
  {
    match ev
    case Publish(publish, topicOverride, maxBytes, _) => AccountedPublish(s, publish, topicOverride, maxBytes);
    case PubAck(id) => AccountedClear(Whole(s), id);
    case PubRec(id, _) => AccountedClear(Whole(s), id);
    case Release(id) => assert Whole(Apply(s, ev)) == Whole(s);
    case PubComp(_) =>
    case Expire(cut) => AccountedExpire(Whole(s), cut);
    case Attach =>
    case Connect(_) =>
    case Resend(verdict) => AccountedResend(Whole(s), verdict);
    case Reconnect(receiveMax, verdict) => AccountedResend(QosState.Connect(Whole(s), receiveMax), verdict);
    case Disconnect =>
  }

  /** What queueing does to it, and to the ids in use. */
  lemma AccountedPublish(s: Session, publish: Publish, topicOverride: Option<string>, maxBytes: nat)
    requires AllAccounted(s) && (s.q.quota != 0 ==> SomeIdLeft(s.q.usedIds))
    ensures var (q, id) := Queue(s.q, publish, topicOverride, maxBytes);
      && AllAccounted(s.(q := q)) && q.outgoing == s.q.outgoing && q.ceiling == s.q.ceiling
      && (if id.Some? then q.quota == s.q.quota - 1 && q.usedIds == s.q.usedIds + {id.value} && id.value !in s.q.usedIds else q == s.q)
  {
    AccountedQueue(Whole(s), publish, topicOverride, maxBytes);
    var (q, id) := Queue(s.q, publish, topicOverride, maxBytes);
    assert Queue(Whole(s), publish, topicOverride, maxBytes) == (Whole(s.(q := q)), id);
  }

  /** A PUBREC for an id that is not in use, as after a message was dropped under way, is what does break it. */
  lemma PubRecKeepsAccount(s: Session, id: PacketId)
    requires AllAccounted(s)
    ensures AllAccounted(Apply(s, PubRec(id, false))) <==> id in s.q.usedIds
  {
    AccountedClear(Whole(s), id);
  }

  /**
   In every reachable state of a fresh session the ids in use are the queued ones, the outgoing ones, and
   those whose PUBREC is being handled; and these are disjoint.
   */
  lemma {:induction false} UsedIdsAreQueuedOrReleased(maxPending: PacketId, events: seq<Event>)
    requires Allows(Fresh(maxPending), events)
    ensures AllAccounted(Run(Fresh(maxPending), events))
    ensures var s := Run(Fresh(maxPending), events);
      var between := s.releasing - s.q.outgoing;
      && s.q.usedIds == Ids(s.q.queue) + between + s.q.outgoing
      && Ids(s.q.queue) !! between && Ids(s.q.queue) !! s.q.outgoing && between !! s.q.outgoing
    decreases |events|
  {
    if events != [] {
      UsedIdsAreQueuedOrReleased(maxPending, events[..|events| - 1]);
      AccountedStep(Run(Fresh(maxPending), events[..|events| - 1]), events[|events| - 1]);
    } else {
      DistinctIdPairs([]);
    }
  }

  /** Hence no id is ever issued while a message is queued under it or its handshake is not over. */
  lemma IssuedIdIsUnheld(maxPending: PacketId, events: seq<Event>)
    requires Allows(Fresh(maxPending), events)
    requires var q := Run(Fresh(maxPending), events).q; SomeIdLeft(q.usedIds) && Claim(q).1.Some?
    ensures var s := Run(Fresh(maxPending), events); var id := Claim(s.q).1.value;
      id != 0 && id !in Ids(s.q.queue) && id !in s.q.outgoing && id !in s.releasing
  {
    UsedIdsAreQueuedOrReleased(maxPending, events);
    ClaimIsCyclicallyFirst(Run(Fresh(maxPending), events).q);
  }

  // ---------- flow control ----------

  /** Quota, and what this connection has under way or still to send. */
  function Spoken(s: Session): int {
    s.q.quota + |s.sent| + |s.unsent|
  }

  /** Whatever of the receive maximum is neither quota nor held by a message of this connection was given back. */
  ghost predicate WithinReceiveMax(s: Session) {
    && (s.status.Online? ==> Spoken(s) <= s.limit + s.carriedDone + s.swept + |s.early|)
    && (s.status.Online? ==> s.q.ceiling == s.limit)
    && (s.status.Offline? ==> s.sent == {})
    && (!s.status.Online? ==> s.unsent == {} && s.early == {})
    && s.early <= s.sent
  }

  lemma SetGrows(a: set<PacketId>, b: set<PacketId>)
    ensures |a + b| <= |a| + |b|
    ensures |a - b| <= |a|
  {
  }

  lemma FlowStep(s: Session, ev: Event)
    requires AllAccounted(s) && WithinReceiveMax(s) && Possible(s, ev)
    ensures WithinReceiveMax(Apply(s, ev))
  {
    match ev
    case Publish(publish, topicOverride, maxBytes, written) => FlowPublish(s, publish, topicOverride, maxBytes, written);
    case PubAck(id) => FlowAck(s, id);
    case PubRec(id, _) => FlowAck(s, id);
    case Release(_) =>
    case PubComp(id) => FlowComp(s, id);
    case Expire(cut) => FlowSweep(s, cut);
    case Attach =>
    case Connect(_) =>
    case Resend(verdict) => FlowResend(s, verdict);
    case Reconnect(receiveMax, verdict) => FlowReconnect(s, receiveMax, verdict);
    case Disconnect =>
  }

  lemma FlowPublish(s: Session, publish: Publish, topicOverride: Option<string>, maxBytes: nat, written: bool)
    requires AllAccounted(s) && WithinReceiveMax(s) && Possible(s, Event.Publish(publish, topicOverride, maxBytes, written))
    ensures WithinReceiveMax(Apply(s, Event.Publish(publish, topicOverride, maxBytes, written)))
  {
    AccountedPublish(s, publish, topicOverride, maxBytes);
    var (_, id) := Queue(s.q, publish, topicOverride, maxBytes);
    if id.Some? {
      SetGrows(s.sent, {id.value});
      SetGrows(s.unsent, {id.value});
    }
  }

  lemma FlowAck(s: Session, id: PacketId)
    requires AllAccounted(s) && WithinReceiveMax(s) && s.status.Online? && (id in Ids(s.q.queue) ==> id in s.sent)
    ensures WithinReceiveMax(Apply(s, PubAck(id))) && WithinReceiveMax(Apply(s, PubRec(id, true)))
    ensures WithinReceiveMax(Apply(s, PubRec(id, false)))
  {
    AccountedClear(Whole(s), id);
    SettledSets(s, id);
  }

  lemma FlowComp(s: Session, id: PacketId)
    requires WithinReceiveMax(s) && s.status.Online?
    ensures WithinReceiveMax(Apply(s, PubComp(id)))
  {
    SettledSets(s, id);
  }

  /** One id less among those sent. */
  lemma SettledSets(s: Session, id: PacketId)
    requires s.early <= s.sent
    ensures |s.sent - {id}| == |s.sent| - (if id in s.sent then 1 else 0)
    ensures |s.early - {id}| == |s.early| - (if id in s.early then 1 else 0)
    ensures s.early - {id} <= s.sent - {id}
  {
    assert id !in s.sent ==> s.sent - {id} == s.sent;
    assert id !in s.early ==> s.early - {id} == s.early;
  }

  /** Short of the ceiling, a sweep leaves the sum alone exactly when all it drops was queued on this connection and not sent. */
  lemma FlowSweep(s: Session, cut: nat)
    requires AllAccounted(s) && WithinReceiveMax(s)
    ensures WithinReceiveMax(Swept(s, cut))
    ensures var gone := Ids(s.q.queue) - Ids(DropDue(s.q.queue, cut));
      s.q.quota + |gone| <= s.q.ceiling ==> (Spoken(Swept(s, cut)) == Spoken(s) <==> gone <= s.unsent)
  {
    var gone := Ids(s.q.queue) - Ids(DropDue(s.q.queue, cut));
    SetParts(gone, s.unsent);
    SetParts(s.unsent, gone);
    assert |gone| == |gone - s.unsent| + |s.unsent| - |s.unsent - gone|;
  }

  lemma SetParts(a: set<PacketId>, b: set<PacketId>)
    ensures |a| == |a - b| + |a * b| && a * b == b * a
    ensures |a - b| == 0 <==> a <= b
  {
    assert a == (a - b) + (a * b);
    assert |a - b| == 0 ==> a - b == {};
  }

  lemma FlowResend(s: Session, verdict: Entry -> bool)
    requires AllAccounted(s) && WithinReceiveMax(s) && s.status.Online?
    ensures WithinReceiveMax(Resent(s, verdict))
  {
    var q := QosState.Resend(s.q, verdict);
    DistinctKept(s.q.queue, s.q.quota, verdict);
    DistinctCount(q.queue);
    ResentSets(s.sent, s.early, Ids(q.queue));
    SetGrows(s.unsent, Ids(s.q.queue));
  }

  /** Resending counts at least those that were sent before the counters were reset. */
  lemma ResentSets(sent: set<PacketId>, early: set<PacketId>, kept: set<PacketId>)
    requires early <= sent
    ensures |sent + kept| + |early| <= |sent| + |kept| + |early - kept|
    ensures early - kept <= sent + kept
  {
    SetParts(early, kept);
    SetParts(kept, sent);
    assert sent + kept == sent + (kept - sent);
    SetGrows(sent, kept - sent);
    assert early * kept <= kept * sent;
    SubsetSize(early * kept, kept * sent);
  }

  lemma SubsetSize(a: set<PacketId>, b: set<PacketId>)
    requires a <= b
    ensures |a| <= |b|
  {
    assert b == a + (b - a);
  }

  /** A reset of the counters starts at the receive maximum exactly when nothing was queued to be sent on the connection before. */
  lemma ConnectCountsEarly(s: Session, receiveMax: PacketId)
    ensures Spoken(Connected(s, receiveMax)) <= receiveMax <==> s.sent == {}
  {
  }

  lemma FlowReconnect(s: Session, receiveMax: PacketId, verdict: Entry -> bool)
    requires AllAccounted(s) && WithinReceiveMax(s) && !s.status.Online?
    ensures WithinReceiveMax(Resent(Connected(s, receiveMax), verdict))
  {
    FlowResend(Connected(s, receiveMax), verdict);
  }

  /**
   Flow control: whatever happens between connect and resend, the quota lies between 0 and its
   ceiling, and together with the messages of this connection, sent and still unacknowledged or not
   sent, it never exceeds the receive maximum plus the exchanges from before that were completed on it,
   plus the messages swept on it that it had sent or had not yet counted, plus the messages that a
   thread queued for it before the counters were reset and that the resend has not counted.
   */
  lemma {:induction false} FlowControlHolds(maxPending: PacketId, events: seq<Event>)
    requires Allows(Fresh(maxPending), events)
    ensures var s := Run(Fresh(maxPending), events);
      && 0 <= s.q.quota <= s.q.ceiling
      && WithinReceiveMax(s)
    decreases |events|
  {
    UsedIdsAreQueuedOrReleased(maxPending, events);
    if events != [] {
      var before := events[..|events| - 1];
      FlowControlHolds(maxPending, before);
      UsedIdsAreQueuedOrReleased(maxPending, before);
      FlowStep(Run(Fresh(maxPending), before), events[|events| - 1]);
    }
  }

  /**
   The sweep is what breaks the receive maximum: a message of its last second is sent again on
   reconnect, which looks at the moment of expiry, and then swept by a thread that saw the client
   off-line, which looks at the whole second. Its unit goes back to the quota while it is under way.
   */
  lemma LateSweepExceedsReceiveMax(publish: Publish, cut: nat, keep: Entry -> bool) returns (events: seq<Event>)
    requires IsDue(publish, cut) && keep(Entry(1, publish, None))
    ensures |events| == 3 && events[0].Publish? && events[1] == Reconnect(1, keep) && events[2] == Expire(cut)
    ensures Allows(Fresh(1), events)
    ensures var s := Run(Fresh(1), events);
      && s.status.Online? && s.limit == 1 && s.carriedDone == 0 && s.swept == 1 && s.early == {}
      && s.sent == {1} && s.q.quota == 1
  {
    var s1 := FirstQueued(publish);
    var s2 := FirstResent(publish, keep);
    SweepResent(s2, publish, cut);
    events := [];
    events := Then(Fresh(1), events, Fresh(1), Event.Publish(publish, None, 1, false), s1);
    events := Then(Fresh(1), events, s1, Reconnect(1, keep), s2);
    events := Then(Fresh(1), events, s2, Expire(cut), Swept(s2, cut));
  }

  /** The only message, that was resent, is due. */
  lemma SweepResent(s: Session, publish: Publish, cut: nat)
    requires IsDue(publish, cut) && s.q.queue == [Entry(1, publish, None)] && s.q.quota == 0 && s.q.ceiling == 1
    requires s.status.Online? && s.unsent == {}
    ensures Swept(s, cut).swept == s.swept + 1 && Swept(s, cut).q.quota == 1
    ensures Swept(s, cut) == s.(q := Swept(s, cut).q, swept := s.swept + 1)
  {
    var e := Entry(1, publish, None);
    assert [e][1..] == [] && DropDue([e], cut) == [] && e in [e] && Ids([e]) == {1};
    assert {1} - {} - s.unsent == {1};
  }

  /** One event more. */
  lemma Then(s: Session, events: seq<Event>, m: Session, ev: Event, m': Session) returns (more: seq<Event>)
    requires Allows(s, events) && Run(s, events) == m && Possible(m, ev) && Apply(m, ev) == m'
    ensures more == events + [ev] && Allows(s, more) && Run(s, more) == m'
  {
    more := events + [ev];
    assert more[..|events|] == events;
  }

  lemma FirstQueued(publish: Publish) returns (s: Session)
    ensures SomeIdLeft({})
    ensures s == Apply(Fresh(1), Event.Publish(publish, None, 1, false)) && s.status.Offline? && s.sent == {} && s.releasing == {}
    ensures s.q.queue == [Entry(1, publish, None)] && s.q.usedIds == {1} && s.q.outgoing == {}
  {
    assert UsableAfter({}, 0, 1) && Usable(1, {});
    s := Apply(Fresh(1), Event.Publish(publish, None, 1, false));
  }

  lemma FirstResent(publish: Publish, keep: Entry -> bool) returns (s: Session)
    requires keep(Entry(1, publish, None))
    ensures s == Apply(Apply(Fresh(1), Event.Publish(publish, None, 1, false)), Reconnect(1, keep))
    ensures s.status.Online? && s.limit == 1 && s.carriedDone == 0 && s.swept == 0
    ensures s.sent == {1} && s.unsent == {} && s.early == {}
    ensures s.q.queue == [Entry(1, publish, None)] && s.q.quota == 0 && s.q.ceiling == 1
  {
    var s1 := FirstQueued(publish);
    var e := Entry(1, publish, None);
    assert Allowed([e], keep) == [e] && Kept([e], 1, keep) == [e] by { assert [e][1..] == []; }
    s := Resent(Connected(s1, 1), keep);
    assert e in s.q.queue;
  }

  /**
   So does a message that a thread queues for the new client before the counters are reset: its unit
   comes back with the reset, and it is written all the same.
   */
  lemma EarlyWriteExceedsReceiveMax(publish: Publish) returns (events: seq<Event>)
    ensures |events| == 3 && events[0].Attach? && events[1].Publish? && events[2] == Connect(1)
    ensures Allows(Fresh(5), events)
    ensures var s := Run(Fresh(5), events);
      && s.status.Online? && s.limit == 1 && s.carriedDone == 0 && s.swept == 0 && s.early == {1}
      && s.sent == {1} && s.q.quota == 1
  {
    var b := Event.Publish(publish, None, 1, true);
    var s1 := Apply(Fresh(5), Attach);
    FirstClaim(s1, publish);
    events := [];
    events := Then(Fresh(5), events, Fresh(5), Attach, s1);
    events := Then(Fresh(5), events, s1, b, Apply(s1, b));
    events := Then(Fresh(5), events, Apply(s1, b), Connect(1), Connected(Apply(s1, b), 1));
  }

  lemma FirstClaim(s: Session, publish: Publish)
    requires s == Apply(Fresh(5), Attach)
    ensures SomeIdLeft(s.q.usedIds)
    ensures Apply(s, Event.Publish(publish, None, 1, true)).sent == {1}
  {
    assert UsableAfter({}, 0, 1) && Usable(1, {});
  }

  // ---------- when connecting and resending is one step ----------

  /** No thread gets between connect and resend, and no handshake is carried over a reconnect. */
  ghost predicate Prompt(s: Session, events: seq<Event>)
    decreases |events|
  {
    events == [] ||
    (var before, ev := events[..|events| - 1], events[|events| - 1];
     && Prompt(s, before)
     && !ev.Connect? && !ev.Resend?
     && (ev.Reconnect? ==> Run(s, before).q.outgoing + Run(s, before).releasing == {}))
  }

  /** Every unit of the receive maximum is either still in the quota or held by an id in use. */
  ghost predicate Balanced(s: Session) {
    s.q.quota + |s.q.usedIds| == s.limit <= s.q.ceiling
  }

  lemma BalancedStep(s: Session, ev: Event)
    requires AllAccounted(s) && Balanced(s) && Possible(s, ev)
    requires !ev.Connect? && !ev.Resend? && (ev.Reconnect? ==> s.q.outgoing + s.releasing == {})
    ensures Balanced(Apply(s, ev))
  {
    match ev
    case Publish(publish, topicOverride, maxBytes, _) => AccountedPublish(s, publish, topicOverride, maxBytes);
    case PubAck(id) => BalancedAck(s, id);
    case PubRec(id, _) => BalancedAck(s, id);
    case Release(_) =>
    case PubComp(_) =>
    case Expire(cut) => BalancedExpire(s, cut);
    case Attach =>
    case Reconnect(receiveMax, verdict) => BalancedReconnect(s, receiveMax, verdict);
    case Disconnect =>
  }

  lemma BalancedAck(s: Session, id: PacketId)
    requires AllAccounted(s) && Balanced(s)
    ensures Balanced(Apply(s, PubAck(id))) && Balanced(Apply(s, PubRec(id, true)))
    ensures Balanced(Apply(s, PubRec(id, false)))
  {
    AccountedClear(Whole(s), id);
  }

  lemma BalancedExpire(s: Session, cut: nat)
    requires AllAccounted(s) && Balanced(s)
    ensures Balanced(Swept(s, cut))
  {
  }

  lemma BalancedReconnect(s: Session, receiveMax: PacketId, verdict: Entry -> bool)
    requires AllAccounted(s) && s.q.outgoing + s.releasing == {}
    ensures Balanced(Resent(Connected(s, receiveMax), verdict))
  {
    var q := QosState.Connect(s.q, receiveMax);
    var kept := Kept(q.queue, q.quota, verdict);
    KeptMembers(q.queue, q.quota, verdict);
    DistinctKept(q.queue, q.quota, verdict);
    DistinctCount(kept);
    assert q.usedIds - (Ids(q.queue) - Ids(kept)) == Ids(kept);
  }

  /**
   In such runs quota and ids in use add up to the receive maximum, so that the search for an id
   always ends: while there is quota, some id is unused.
   */
  lemma {:induction false} QuotaBalancesUsedIds(maxPending: PacketId, events: seq<Event>)
    requires Allows(Fresh(maxPending), events) && Prompt(Fresh(maxPending), events)
    ensures Balanced(Run(Fresh(maxPending), events))
    ensures var q := Run(Fresh(maxPending), events).q; q.quota != 0 ==> SomeIdLeft(q.usedIds)
    decreases |events|
  {
    if events != [] {
      var before := events[..|events| - 1];
      QuotaBalancesUsedIds(maxPending, before);
      UsedIdsAreQueuedOrReleased(maxPending, before);
      BalancedStep(Run(Fresh(maxPending), before), events[|events| - 1]);
    }
    UsedIdsAreQueuedOrReleased(maxPending, events);
    LimitFits(maxPending, events);
    var q := Run(Fresh(maxPending), events).q;
    if q.quota != 0 && !SomeIdLeft(q.usedIds) {
      forall id: int | 0 < id < PACKET_ID_VALUES ensures id in q.usedIds {
        var packetId: PacketId := id;
        assert !Usable(packetId, q.usedIds);
      }
      AllUsed(q.usedIds, PACKET_ID_VALUES);
    }
  }

  lemma {:induction false} LimitFits(maxPending: PacketId, events: seq<Event>)
    ensures Run(Fresh(maxPending), events).limit < PACKET_ID_VALUES
    decreases |events|
  {
    if events != [] {
      var before := Run(Fresh(maxPending), events[..|events| - 1]);
      LimitFits(maxPending, events[..|events| - 1]);
      LimitStays(before, events[|events| - 1]);
    }
  }

  lemma LimitStays(s: Session, ev: Event)
    requires s.limit < PACKET_ID_VALUES
    ensures Apply(s, ev).limit < PACKET_ID_VALUES
  {
  }

  lemma {:induction false} AllUsed(used: set<PacketId>, n: int)
    requires 1 <= n <= PACKET_ID_VALUES && forall id: int :: 0 < id < n ==> id in used
    ensures |used| >= n - 1
    decreases n
  {
    if n > 1 {
      AllUsed(used - {n - 1}, n - 1);
    }
  }
}
