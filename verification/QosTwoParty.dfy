/**
 Two sessions, a sender's and a receiver's, over one connection at a time. Messages of QoS 1 and 2
 share the ids, the queue and the channels. Packets travel in order and are lost when the connection
 ends. Publishing threads, the sender's own thread, the receiver and the network take their steps in
 any order.
 */
module QosTwoParty {
  import opened Options
  import opened QosState
  import opened QosAccounting

  datatype Phase =
    | Offline
    | Attached // the session has its new client, but the counters are not reset yet
    | Window   // connected, sendAllPendingQosData has not run yet
    | Sending  // its locked section ran, and its list is being written
    | Online

  /** A PUBLISH of QoS 2, a PUBREL, and a PUBLISH of QoS 1. */
  datatype Packet = Pub(id: PacketId, n: nat) | Rel(id: PacketId) | Pub1(id: PacketId, n: nat)

  /** PUBREC, PUBCOMP and PUBACK. */
  datatype Reply = Rec(id: PacketId, isError: bool) | Comp(id: PacketId) | Ack(id: PacketId)

  /** Messages are told apart by a serial number that only this model knows. */
  datatype Link = Link(
    s: QosData,                   // the sender's session
    releasing: set<PacketId>,     // ids between the two locked sections of handlePubRec
    held: set<PacketId>,          // the receiver's incoming QoS 2 ids
    phase: Phase,
    fwd: seq<Packet>,             // on the way to the receiver
    bwd: seq<Reply>,              // on the way back
    todo: seq<Packet>,            // copied by sendAllPendingQosData, not written yet
    staged: set<Packet>,          // queued by a publishing thread that has not written yet
    owner: map<PacketId, nat>,    // the message that each id in use stands for
    issued: nat,                  // how many messages were queued so far
    dropped: set<nat>,            // the messages that resend or expiry dropped
    log: seq<nat>,                // the QoS 2 messages the receiver forwarded, in order
    stale: set<nat>,              // the messages queued under an id that the receiver still held
    denied: set<nat>,             // the QoS 2 messages the receiver did not forward when it got them first
    completed: set<nat>,          // the messages whose id a PUBCOMP freed
    single: set<nat>,             // the messages of QoS 1
    arrived: set<nat>,            // those of them that the receiver forwarded
    refused: set<nat>,            // those that it did not
    acked: set<nat>)              // the messages whose id a PUBACK freed

  /**
   What the receiver's ACL makes of a new message. It is swallowed, without an error in the answer,
   when a plugin says so, and when it is refused over a version of MQTT without reason codes.
   */
  datatype Outcome = Forwarded | Swallowed | Refused

  /**
   A publishing thread and the sweeping thread look for the client before they take the lock. So a
   message may be queued by a thread that is not going to write it (`writes`), one that is going to
   write it may be queued before the counters are reset, and the sweep for off-line clients may come
   at any time.
   */
  datatype Event =
    | QueueMessage(publish: Publish, topicOverride: Option<string>, maxBytes: nat, writes: bool)
    | WriteMessage(p: Packet, accepted: bool)
    | Receive(outcome: Outcome)
    | HandleReply
    | Release(id: PacketId)    // the second half of handlePubRec
    | Attach
    | Connect(receiveMax: PacketId)
    | Copy(verdict: Entry -> bool, releases: seq<PacketId>)
    | SendNext(accepted: bool)
    | Disconnect
    | Expire(cut: nat)

  function Fresh(maxPending: PacketId): Link {
    Link(QosData({}, [], 0, maxPending, 0xFFFF, {}, {}), {}, {}, Offline, [], [], [], {}, map[], 0, {}, [], {}, {}, {}, {}, {}, {}, {})
  }

  /** What the sender's own thread does, it does one after the other. */
  predicate Possible(l: Link, ev: Event) {
    match ev
    case QueueMessage(publish, _, _, _) => publish.qos in {1, 2} && (l.s.quota != 0 ==> SomeIdLeft(l.s.usedIds))
    case WriteMessage(p, _) => p in l.staged
    case Receive(_) => l.fwd != []
    case HandleReply => l.bwd != [] && l.phase in {Window, Online} && l.releasing == {}
    case Release(id) => id in l.releasing
    case Attach => l.phase == Offline
    case Connect(_) => l.phase == Offline || l.phase == Attached
    case Copy(_, releases) => l.phase == Window && l.releasing == {} && Lists(releases, l.s.outgoing)
    case SendNext(_) => l.phase == Sending && l.todo != []
    case Disconnect => l.phase != Offline && l.releasing == {}
    case Expire(_) => true
  }

  /** The PUBLISH for message `n`. */
  function PubFor(id: PacketId, n: nat, single: set<nat>): Packet {
    if n in single then Pub1(id, n) else Pub(id, n)
  }

  function Queued(l: Link, publish: Publish, topicOverride: Option<string>, maxBytes: nat, writes: bool): Link {
    match Queue(l.s, publish, topicOverride, maxBytes)
    case (s, None) => l.(s := s)
    case (s, Some(id)) =>
      var single := if publish.qos == 1 then l.single + {l.issued} else l.single;
      l.(s := s, owner := l.owner[id := l.issued], issued := l.issued + 1, single := single,
         staged := if writes && l.phase != Offline then l.staged + {PubFor(id, l.issued, single)} else l.staged,
         stale := if id in l.held then l.stale + {l.issued} else l.stale)
  }

  /** The receiver takes one packet; see QoSData.HandlePublishQos2 and QoSData.HandlePubRel. */
  function Received(l: Link, outcome: Outcome): Link
    requires l.fwd != []
  {
    var rest := l.(fwd := l.fwd[1..]);
    match l.fwd[0]
    case Pub(id, n) =>
      if id in l.held then rest.(bwd := l.bwd + [Rec(id, false)])
      else if outcome.Forwarded? then rest.(held := l.held + {id}, log := l.log + [n], bwd := l.bwd + [Rec(id, false)])
      else rest.(held := l.held + {id}, denied := l.denied + {n}, bwd := l.bwd + [Rec(id, outcome.Refused?)])
    case Rel(id) => rest.(held := l.held - {id}, bwd := l.bwd + [Comp(id)])
    case Pub1(id, n) =>
      if outcome.Forwarded? then rest.(arrived := l.arrived + {n}, bwd := l.bwd + [Ack(id)])
      else rest.(refused := l.refused + {n}, bwd := l.bwd + [Ack(id)])
  }

  /** The sender takes one packet; see QoSData.ClearQosMessage and QoSData.RemoveOutgoingQoS2MessageId. */
  function ReplyHandled(l: Link): Link
    requires l.bwd != []
  {
    var rest := l.(bwd := l.bwd[1..]);
    match l.bwd[0]
    case Rec(id, isError) =>
      if isError
      then rest.(s := Clear(l.s, id, true), owner := if id in Ids(l.s.queue) then l.owner - {id} else l.owner)
      else rest.(s := Clear(l.s, id, false), releasing := l.releasing + {id})
    case Comp(id) =>
      if id in l.s.outgoing && id in l.owner
      then rest.(s := QosState.PubComp(l.s, id), owner := l.owner - {id}, completed := l.completed + {l.owner[id]})
      else rest.(s := QosState.PubComp(l.s, id))
    case Ack(id) =>
      if id in Ids(l.s.queue) && id in l.owner
      then rest.(s := Clear(l.s, id, true), owner := l.owner - {id}, acked := l.acked + {l.owner[id]})
      else rest.(s := Clear(l.s, id, true))
  }

  /** The second half: the id is noted as outgoing, and the PUBREL goes out. */
  function Releasing(l: Link, id: PacketId): Link {
    l.(s := AddOutgoing(l.s, id), releasing := l.releasing - {id}, fwd := l.fwd + [Rel(id)])
  }

  /** The list that sendAllPendingQosData writes after it let go of the lock. */
  function Copied(queue: seq<Entry>, owner: map<PacketId, nat>, single: set<nat>, releases: seq<PacketId>): seq<Packet> {
    seq(|queue|, k requires 0 <= k < |queue| => PubFor(queue[k].id, if queue[k].id in owner then owner[queue[k].id] else 0, single))
    + seq(|releases|, k requires 0 <= k < |releases| => Rel(releases[k]))
  }

  /** What was queued before and is not in `s`, was dropped. */
  function Dropping(l: Link, s: QosData): Link {
    var gone := Ids(l.s.queue) - Ids(s.queue);
    l.(s := s, owner := l.owner - gone, dropped := l.dropped + set i | i in gone && i in l.owner :: l.owner[i])
  }

  function CopyMade(l: Link, verdict: Entry -> bool, releases: seq<PacketId>): Link {
    var s := QosState.Resend(l.s, verdict);
    var todo := Copied(s.queue, l.owner, l.single, releases);
    Dropping(l, s).(todo := todo, phase := if todo == [] then Online else Sending)
  }

  function Apply(l: Link, ev: Event): Link
    requires Possible(l, ev)
  {
    match ev
    case QueueMessage(publish, topicOverride, maxBytes, writes) => Queued(l, publish, topicOverride, maxBytes, writes)
    case WriteMessage(p, accepted) =>
      l.(staged := l.staged - {p}, fwd := if accepted then l.fwd + [p] else l.fwd)
    case Receive(outcome) => Received(l, outcome)
    case HandleReply => ReplyHandled(l)
    case Release(id) => Releasing(l, id)
    case Attach => l.(phase := Attached)
    case Connect(receiveMax) => l.(s := QosState.Connect(l.s, receiveMax), phase := Window)
    case Copy(verdict, releases) => CopyMade(l, verdict, releases)
    case SendNext(accepted) =>
      l.(todo := l.todo[1..], fwd := if accepted then l.fwd + [l.todo[0]] else l.fwd,
         phase := if |l.todo| == 1 then Online else Sending)
    case Disconnect => l.(phase := Offline, fwd := [], bwd := [], todo := [], staged := {})
    case Expire(cut) => ExpireMade(l, cut)
  }

  function ExpireMade(l: Link, cut: nat): Link {
    Dropping(l, ExpireAt(l.s, cut))
  }

  /** A QoS 2 PUBLISH or a PUBREC for this id is under way, or a PUBREL or PUBCOMP while the receiver holds it. */
  predicate UnderWay(l: Link, id: PacketId) {
    || (exists p :: p in l.fwd && p.id == id && (p.Pub? || (p.Rel? && id in l.held)))
    || (exists r :: r in l.bwd && r.id == id && (r.Rec? || (r.Comp? && id in l.held)))
  }

  predicate ToBeWritten(l: Link, id: PacketId) {
    (exists p :: p in l.staged && p.id == id && p.Pub?) || (exists p :: p in l.todo && p.id == id && p.Pub?)
  }

  /** A QoS 1 PUBLISH for this id is under way or about to be written, or its PUBACK is under way. */
  predicate About(l: Link, id: PacketId) {
    || (exists p :: p in l.fwd && p.id == id && p.Pub1?) || (exists p :: p in l.todo && p.id == id && p.Pub1?)
    || (exists p :: p in l.staged && p.id == id && p.Pub1?) || Ack(id) in l.bwd
  }

  /** A refusal is on its way back. */
  predicate Refusing(l: Link) {
    exists r :: r in l.bwd && r.Rec? && r.isError
  }

  /**
   What a step must not do for the protocol to be sound. An id must not be issued while a QoS 1 packet
   about it is under way or about to be written. The locked section of the resend must not come between
   a publishing thread's queueing of a QoS 2 message and its write, nor while a refusal is under way, and
   neither it nor the sweep may drop a QoS 2 message that is under way or about to be written. The
   receiver must not refuse a message of which a second copy follows.
   */
  predicate Sound(l: Link, ev: Event) {
    match ev
    case QueueMessage(publish, topicOverride, maxBytes, _) =>
      var id := Queue(l.s, publish, topicOverride, maxBytes).1;
      id.Some? ==> !About(l, id.value)
    case Copy(verdict, _) =>
      && (forall p :: p in l.staged ==> !p.Pub?) && !Refusing(l)
      && forall id :: id in Ids(l.s.queue) - Ids(QosState.Resend(l.s, verdict).queue) ==> !UnderWay(l, id)
    case Expire(cut) =>
      forall id :: id in Ids(l.s.queue) - Ids(DropDue(l.s.queue, cut)) ==> !UnderWay(l, id) && !ToBeWritten(l, id)
    case Receive(outcome) =>
      !outcome.Refused? || l.fwd == [] || !l.fwd[0].Pub? || l.fwd[0].id in l.held || !CopyFollows(l)
    case _ => true
  }

  predicate CopyFollows(l: Link)
    requires l.fwd != []
  {
    || (exists p :: p in l.fwd[1..] && p.id == l.fwd[0].id && !p.Pub1?)
    || (exists p :: p in l.todo && p.id == l.fwd[0].id && !p.Pub1?)
  }

  // ---------- the invariant ----------

  /** The ids past PUBREC. */
  function Past(l: Link): set<PacketId> {
    l.s.outgoing + l.releasing
  }

  /** The ids in use are the queued ones and the ones past PUBREC. */
  ghost predicate AllAccounted(l: Link) {
    Accounted(l.s.(outgoing := Past(l)))
  }

  /** What most steps need of it. */
  ghost predicate InUse(l: Link) {
    l.s.usedIds == Ids(l.s.queue) + Past(l) && Ids(l.s.queue) !! Past(l)
  }

  /** Each id in use stands for one message. */
  ghost predicate Owned(l: Link) {
    && l.owner.Keys == l.s.usedIds
    && (forall i, j :: i in l.owner && j in l.owner && i != j ==> l.owner[i] != l.owner[j])
    && (forall i :: i in l.owner ==> l.owner[i] < l.issued)
    && (forall n :: n in l.single ==> n < l.issued)
  }

  /** The id stands for a message of QoS 2. */
  predicate Twice(l: Link, id: PacketId) {
    id in l.owner && l.owner[id] !in l.single
  }

  ghost predicate FwdPair(fwd: seq<Packet>, j: nat, k: nat, queued: set<PacketId>, released: set<PacketId>) {
    j < k < |fwd| && fwd[j].id == fwd[k].id ==>
      && (fwd[j].Pub? && fwd[k].Rel? ==> fwd[j].id !in queued)
      && (fwd[j].Rel? && fwd[k].Pub? ==> fwd[j].id !in released)
  }

  /** Before PUBREC, no PUBREL follows a PUBLISH; after it, no PUBLISH follows a PUBREL. */
  ghost predicate FwdOrdered(fwd: seq<Packet>, queued: set<PacketId>, released: set<PacketId>) {
    forall j, k :: FwdPair(fwd, j, k, queued, released)
  }

  ghost predicate BwdPair(bwd: seq<Reply>, j: nat, k: nat, queued: set<PacketId>, released: set<PacketId>) {
    j < k < |bwd| && bwd[j].id == bwd[k].id ==>
      && (bwd[j].Rec? && bwd[k].Comp? ==> bwd[j].id !in queued)
      && (bwd[j].Comp? && bwd[k].Rec? ==> bwd[j].id !in released)
      && (bwd[j].Rec? && bwd[k].Rec? ==> !bwd[j].isError && !bwd[k].isError)
  }

  /**
   Before PUBREC, no PUBCOMP follows a PUBREC; after it, no PUBREC follows a PUBCOMP; a refusal is
   the only PUBREC for its id.
   */
  ghost predicate BwdOrdered(bwd: seq<Reply>, queued: set<PacketId>, released: set<PacketId>) {
    forall j, k :: BwdPair(bwd, j, k, queued, released)
  }

  /** What can be on its way to the receiver. */
  ghost predicate FwdOk(l: Link) {
    var queued := Ids(l.s.queue);
    && (forall p :: p in l.fwd && p.Pub? ==>
          && Twice(l, p.id) && p.n == l.owner[p.id] && p !in l.staged
          && (p.id in Past(l) ==> p.id in l.held))
    && (forall p :: p in l.fwd && !p.Pub1? && p.id in l.held ==> p.id in l.owner && (p.Rel? ==> p.id !in queued))
    && FwdOrdered(l.fwd, queued, Past(l))
  }

  /** What is about to be written. */
  ghost predicate TodoOk(l: Link) {
    && (l.phase != Sending ==> l.todo == [])
    && (forall p :: p in l.todo && p.Pub? ==> p.id in Ids(l.s.queue) && Twice(l, p.id) && p.n == l.owner[p.id] && p !in l.staged)
    && (forall p :: p in l.todo && p.Rel? ==> p.id in Past(l))
  }

  ghost predicate StagedOk(l: Link) {
    forall p :: p in l.staged ==> !p.Rel? && (p.Pub? ==> p.id in Ids(l.s.queue) && Twice(l, p.id) && p.n == l.owner[p.id])
  }

  /** What can be on its way back. */
  ghost predicate BwdOk(l: Link) {
    var queued := Ids(l.s.queue);
    && (forall r :: r in l.bwd && r.Rec? ==>
          r.id in Past(l) || (r.id in queued && Twice(l, r.id) && r.id in l.held && forall p :: p in l.staged && p.Pub? ==> p.id != r.id))
    && (forall r :: r in l.bwd && r.Comp? && r.id in l.held ==> r.id in queued && Twice(l, r.id))
    && (forall r :: r in l.bwd && r.Rec? && r.isError ==>
          && r.id in queued && r.id in l.owner && l.owner[r.id] in l.denied
          && (forall p :: p in l.fwd && !p.Pub1? ==> p.id != r.id) && forall p :: p in l.todo && !p.Pub1? ==> p.id != r.id)
    && BwdOrdered(l.bwd, queued, Past(l))
  }

  /** A QoS 1 PUBLISH for an id that is in use carries the message the id stands for. */
  ghost predicate CarriesOwn(l: Link, p: Packet) {
    p.Pub1? ==> p.n in l.single && (p.id in l.owner ==> l.owner[p.id] == p.n)
  }

  /** QoS 1: what is under way is about the message its id stands for, and a PUBACK about one that arrived. */
  ghost predicate OnceOk(l: Link) {
    && (forall p :: p in l.fwd ==> CarriesOwn(l, p)) && (forall p :: p in l.todo ==> CarriesOwn(l, p))
    && (forall p :: p in l.staged ==> CarriesOwn(l, p))
    && (forall r :: r in l.bwd && r.Ack? && r.id in l.owner ==> l.owner[r.id] in l.arrived + l.refused)
    && l.acked <= l.arrived + l.refused <= l.single
  }

  /** What the receiver forwarded, and what it holds. */
  ghost predicate HistoryOk(l: Link) {
    && (forall n :: multiset(l.log)[n] <= 1)
    && (forall n :: n in l.log ==> n < l.issued && n !in l.stale && n !in l.denied && n !in l.single)
    && (forall n :: n in l.stale || n in l.denied ==> n < l.issued)
    && (forall n :: n in l.denied ==> n !in l.single)
    && (forall i :: i in Ids(l.s.queue) && i in l.owner ==>
          (i in l.held <==> l.owner[i] in l.log || l.owner[i] in l.stale || l.owner[i] in l.denied))
    && (forall i :: i in Past(l) && i in l.owner ==>
          l.owner[i] in l.log || l.owner[i] in l.stale || l.owner[i] in l.denied)
    && (forall n :: n in l.completed ==>
          && n < l.issued && n !in l.owner.Values
          && (n in l.log <==> n !in l.stale && n !in l.denied))
  }

  /** No message is forgotten: its id is in use, or its handshake is over, or it was refused or dropped. */
  ghost predicate NoneForgotten(l: Link) {
    forall n :: 0 <= n < l.issued ==> n in l.owner.Values || n in l.completed || n in l.acked || n in l.denied || n in l.dropped
  }

  /** What holds of ids and QoS 2 messages. */
  ghost predicate TwiceInv(l: Link) {
    && AllAccounted(l) && Owned(l) && StagedOk(l)
    && (l.phase == Offline ==> l.fwd == [] && l.bwd == [] && l.staged == {} && l.releasing == {})
    && FwdOk(l) && TodoOk(l) && BwdOk(l) && HistoryOk(l)
  }

  /** What holds of QoS 1 messages, and of all. */
  ghost predicate OnceInv(l: Link) {
    OnceOk(l) && NoneForgotten(l)
  }

  ghost predicate Inv(l: Link) {
    TwiceInv(l) && OnceInv(l)
  }

  /** All that QoS 2 has to know of QoS 1. */
  ghost predicate AcksOnce(l: Link) {
    forall r :: r in l.bwd && r.Ack? ==> !Twice(l, r.id)
  }

  lemma InitInv(maxPending: PacketId)
    ensures Inv(Fresh(maxPending))
  {
    DistinctIdPairs([]);
  }

  // ---------- order on the channels ----------

  lemma FwdPush(fwd: seq<Packet>, p: Packet, queued: set<PacketId>, released: set<PacketId>)
    requires FwdOrdered(fwd, queued, released)
    requires p.Rel? && p.id in queued ==> forall x :: x in fwd ==> x.Pub? ==> x.id != p.id
    requires p.Pub? && p.id in released ==> forall x :: x in fwd ==> x.Rel? ==> x.id != p.id
    ensures FwdOrdered(fwd + [p], queued, released)
  {
    forall j: nat, k: nat ensures FwdPair(fwd + [p], j, k, queued, released) {
      assert FwdPair(fwd, j, k, queued, released);
      assert j < |fwd| ==> (fwd + [p])[j] in fwd;
    }
  }

  lemma FwdPop(fwd: seq<Packet>, queued: set<PacketId>, released: set<PacketId>)
    requires FwdOrdered(fwd, queued, released) && fwd != []
    ensures FwdOrdered(fwd[1..], queued, released)
    ensures forall x :: x in fwd[1..] && x.id == fwd[0].id ==>
              (fwd[0].Pub? && x.Rel? ==> x.id !in queued) && (fwd[0].Rel? && x.Pub? ==> x.id !in released)
  {
    forall j: nat, k: nat ensures FwdPair(fwd[1..], j, k, queued, released) {
      assert FwdPair(fwd, j + 1, k + 1, queued, released);
    }
    forall x | x in fwd[1..] && x.id == fwd[0].id
      ensures (fwd[0].Pub? && x.Rel? ==> x.id !in queued) && (fwd[0].Rel? && x.Pub? ==> x.id !in released)
    {
      var k: nat :| k < |fwd[1..]| && fwd[1..][k] == x;
      assert FwdPair(fwd, 0, k + 1, queued, released);
    }
  }

  /** The order stays right when ids that have no packets of the other kind change sides. */
  lemma FwdShift(fwd: seq<Packet>, queued: set<PacketId>, released: set<PacketId>, queued': set<PacketId>, released': set<PacketId>)
    requires FwdOrdered(fwd, queued, released)
    requires forall p :: p in fwd && p.Pub? ==> p.id in queued' ==> p.id in queued
    requires forall p :: p in fwd && p.Rel? ==> p.id in released' ==> p.id in released
    ensures FwdOrdered(fwd, queued', released')
  {
    forall j: nat, k: nat ensures FwdPair(fwd, j, k, queued', released') {
      assert FwdPair(fwd, j, k, queued, released);
      assert j < |fwd| ==> fwd[j] in fwd;
    }
  }

  lemma BwdPush(bwd: seq<Reply>, r: Reply, queued: set<PacketId>, released: set<PacketId>)
    requires BwdOrdered(bwd, queued, released)
    requires r.Comp? && r.id in queued ==> forall x :: x in bwd ==> x.Rec? ==> x.id != r.id
    requires r.Rec? && r.id in released ==> forall x :: x in bwd ==> x.Comp? ==> x.id != r.id
    requires r.Rec? ==> forall x :: x in bwd && x.Rec? && x.id == r.id ==> !x.isError && !r.isError
    ensures BwdOrdered(bwd + [r], queued, released)
  {
    forall j: nat, k: nat ensures BwdPair(bwd + [r], j, k, queued, released) {
      assert BwdPair(bwd, j, k, queued, released);
      assert j < |bwd| ==> (bwd + [r])[j] in bwd;
    }
  }

  lemma BwdPop(bwd: seq<Reply>, queued: set<PacketId>, released: set<PacketId>)
    requires BwdOrdered(bwd, queued, released) && bwd != []
    ensures BwdOrdered(bwd[1..], queued, released)
    ensures forall x :: x in bwd[1..] && x.id == bwd[0].id ==>
              && (bwd[0].Rec? && x.Comp? ==> x.id !in queued)
              && (bwd[0].Comp? && x.Rec? ==> x.id !in released)
              && (bwd[0].Rec? && x.Rec? ==> !bwd[0].isError && !x.isError)
  {
    forall j: nat, k: nat ensures BwdPair(bwd[1..], j, k, queued, released) {
      assert BwdPair(bwd, j + 1, k + 1, queued, released);
    }
    forall x | x in bwd[1..] && x.id == bwd[0].id
      ensures && (bwd[0].Rec? && x.Comp? ==> x.id !in queued)
              && (bwd[0].Comp? && x.Rec? ==> x.id !in released)
              && (bwd[0].Rec? && x.Rec? ==> !bwd[0].isError && !x.isError)
    {
      var k: nat :| k < |bwd[1..]| && bwd[1..][k] == x;
      assert BwdPair(bwd, 0, k + 1, queued, released);
    }
  }

  lemma BwdShift(bwd: seq<Reply>, queued: set<PacketId>, released: set<PacketId>, queued': set<PacketId>, released': set<PacketId>)
    requires BwdOrdered(bwd, queued, released)
    requires forall r :: r in bwd && r.Rec? ==> r.id in queued' ==> r.id in queued
    requires forall r :: r in bwd && r.Comp? ==> r.id in released' ==> r.id in released
    ensures BwdOrdered(bwd, queued', released')
  {
    forall j: nat, k: nat ensures BwdPair(bwd, j, k, queued', released') {
      assert BwdPair(bwd, j, k, queued, released);
      assert j < |bwd| ==> bwd[j] in bwd;
    }
  }

  // ---------- every step keeps the invariant ----------

  /** The accounting with the ids past PUBREC in one place. */
  function Whole(l: Link): QosData {
    l.s.(outgoing := Past(l))
  }

  lemma QueueKeeps(l: Link, publish: Publish, topicOverride: Option<string>, maxBytes: nat, writes: bool)
    requires Inv(l) && Possible(l, QueueMessage(publish, topicOverride, maxBytes, writes))
    ensures var l' := Queued(l, publish, topicOverride, maxBytes, writes);
      TwiceInv(l') && (OnceInv(l') <==> Sound(l, QueueMessage(publish, topicOverride, maxBytes, writes)))
  {
    QueueClaims(l, publish, topicOverride, maxBytes, writes);
    var id := Queue(l.s, publish, topicOverride, maxBytes).1;
    if id.Some? {
      var l' := Queued(l, publish, topicOverride, maxBytes, writes);
      ClaimKeepsTwice(l, l', id.value);
      ClaimKeepsOnce(l, l', id.value);
    }
  }

  lemma QueueClaims(l: Link, publish: Publish, topicOverride: Option<string>, maxBytes: nat, writes: bool)
    requires AllAccounted(l) && Possible(l, QueueMessage(publish, topicOverride, maxBytes, writes))
    ensures var id, l' := Queue(l.s, publish, topicOverride, maxBytes).1, Queued(l, publish, topicOverride, maxBytes, writes);
      AllAccounted(l') && if id.Some? then Claimed(l, l', id.value) else l' == l
  {
    AccountedQueue(Whole(l), publish, topicOverride, maxBytes);
    var (s, id) := Queue(l.s, publish, topicOverride, maxBytes);
    assert Queue(Whole(l), publish, topicOverride, maxBytes) == (s.(outgoing := Past(l)), id);
    if id.Some? {
      IdsSnoc(l.s.queue, Entry(id.value, publish, topicOverride));
    }
  }

  /** What claiming an unused id for a new message changes. */
  ghost predicate Claimed(l: Link, l': Link, id: PacketId) {
    && id !in l.s.usedIds && Ids(l'.s.queue) == Ids(l.s.queue) + {id} && l'.s.outgoing == l.s.outgoing
    && l'.s.usedIds == l.s.usedIds + {id}
    && (l'.single == l.single || l'.single == l.single + {l.issued})
    && (l'.staged == l.staged || (l.phase != Offline && l'.staged == l.staged + {PubFor(id, l.issued, l'.single)}))
    && l'.stale == (if id in l.held then l.stale + {l.issued} else l.stale)
    && l' == l.(s := l'.s, owner := l.owner[id := l.issued], issued := l.issued + 1, single := l'.single, staged := l'.staged, stale := l'.stale)
  }

  lemma ClaimKeepsTwice(l: Link, l': Link, id: PacketId)
    requires TwiceInv(l) && Claimed(l, l', id) && AllAccounted(l')
    ensures TwiceInv(l')
  {
    ClaimKeepsOwned(l, l', id);
    ClaimKeepsChannels(l, l', id);
    ClaimKeepsStaged(l, l', id);
    ClaimKeepsHistory(l, l', id);
  }

  lemma ClaimKeepsChannels(l: Link, l': Link, id: PacketId)
    requires Owned(l) && FwdOk(l) && TodoOk(l) && BwdOk(l) && InUse(l) && Claimed(l, l', id)
    ensures FwdOk(l') && TodoOk(l') && BwdOk(l')
  {
    ClaimKeepsFwd(l, l', id);
    ClaimKeepsBwd(l, l', id);
    ClaimKeepsTodo(l, l', id);
  }

  lemma ClaimKeepsBwd(l: Link, l': Link, id: PacketId)
    requires Owned(l) && BwdOk(l) && InUse(l) && Claimed(l, l', id)
    ensures BwdOk(l')
  {
    ClaimKeepsOwned(l, l', id);
    BwdShift(l.bwd, Ids(l.s.queue), Past(l), Ids(l'.s.queue), Past(l'));
  }

  lemma ClaimKeepsTodo(l: Link, l': Link, id: PacketId)
    requires Owned(l) && TodoOk(l) && Claimed(l, l', id)
    ensures TodoOk(l')
  {
    ClaimKeepsOwned(l, l', id);
  }

  lemma ClaimKeepsFwd(l: Link, l': Link, id: PacketId)
    requires Owned(l) && FwdOk(l) && InUse(l) && Claimed(l, l', id)
    ensures FwdOk(l')
  {
    ClaimKeepsOwned(l, l', id);
    FwdShift(l.fwd, Ids(l.s.queue), Past(l), Ids(l'.s.queue), Past(l'));
  }

  lemma ClaimKeepsStaged(l: Link, l': Link, id: PacketId)
    requires Owned(l) && StagedOk(l) && Claimed(l, l', id)
    ensures StagedOk(l')
  {
    ClaimKeepsOwned(l, l', id);
  }

  lemma ClaimKeepsHistory(l: Link, l': Link, id: PacketId)
    requires Owned(l) && HistoryOk(l) && InUse(l) && Claimed(l, l', id)
    ensures HistoryOk(l')
  {
  }

  lemma ClaimKeepsOwned(l: Link, l': Link, id: PacketId)
    requires Owned(l) && Claimed(l, l', id)
    ensures Owned(l')
    ensures forall i :: Twice(l, i) ==> Twice(l', i) && l'.owner[i] == l.owner[i]
  {
  }

  lemma ClaimKeepsOnce(l: Link, l': Link, id: PacketId)
    requires Owned(l) && OnceInv(l) && Claimed(l, l', id)
    ensures OnceInv(l') <==> !About(l, id)
  {
    forall n | 0 <= n < l'.issued ensures n in l'.owner.Values || n in l'.completed || n in l'.acked || n in l'.denied || n in l'.dropped {
      if n == l.issued {
        assert l'.owner[id] == n;
      } else if n in l.owner.Values {
        var i :| i in l.owner && l.owner[i] == n;
        assert l'.owner[i] == n;
      }
    }
  }

  lemma WriteKeeps(l: Link, p: Packet, accepted: bool)
    requires TwiceInv(l) && Possible(l, WriteMessage(p, accepted))
    ensures TwiceInv(Apply(l, WriteMessage(p, accepted)))
  {
    var l' := Apply(l, WriteMessage(p, accepted));
    assert Past(l') == Past(l);
    WriteKeepsFwd(l, p, accepted);
  }

  lemma WriteKeepsFwd(l: Link, p: Packet, accepted: bool)
    requires InUse(l) && Owned(l) && StagedOk(l) && FwdOk(l) && BwdOk(l) && HistoryOk(l) && p in l.staged
    ensures var l' := Apply(l, WriteMessage(p, accepted)); FwdOk(l') && BwdOk(l')
  {
    if accepted {
      FwdPush(l.fwd, p, Ids(l.s.queue), Past(l));
    }
  }

  lemma ReceiveKeeps(l: Link, outcome: Outcome)
    requires Inv(l) && l.fwd != [] && Sound(l, Receive(outcome))
    ensures TwiceInv(Received(l, outcome))
  {
    FwdPop(l.fwd, Ids(l.s.queue), Past(l));
    assert forall x :: x in l.fwd <==> x == l.fwd[0] || x in l.fwd[1..];
    BwdPush(l.bwd, Received(l, outcome).bwd[|l.bwd|], Ids(l.s.queue), Past(l));
    match l.fwd[0]
    case Rel(id) => ReceiveRelKeeps(l, id, outcome);
    case Pub(id, n) =>
      if id in l.held { ReceiveAgainKeeps(l, id, outcome); }
      else if outcome.Refused? { ReceiveRefusedKeeps(l, id, n); }
      else { ReceiveNewKeeps(l, id, n, outcome); }
    case Pub1(id, n) => ReceiveOnceKeeps(l, id, n, outcome);
  }

  lemma ReceiveFwd(l: Link, outcome: Outcome)
    requires FwdOk(l) && l.fwd != []
    ensures FwdOk(Received(l, outcome))
  {
    FwdPop(l.fwd, Ids(l.s.queue), Past(l));
    assert l.fwd[0] in l.fwd && forall x :: x in l.fwd[1..] ==> x in l.fwd;
  }

  /** What ReceiveKeeps knows of the channels in each of its cases. */
  ghost predicate Popped(l: Link, r: Reply) {
    && TwiceInv(l) && l.fwd != []
    && (forall x :: x in l.fwd <==> x == l.fwd[0] || x in l.fwd[1..])
    && FwdOrdered(l.fwd[1..], Ids(l.s.queue), Past(l))
    && BwdOrdered(l.bwd + [r], Ids(l.s.queue), Past(l))
    && (forall x :: x in l.fwd[1..] && x.id == l.fwd[0].id ==>
          (l.fwd[0].Pub? && x.Rel? ==> x.id !in Ids(l.s.queue)) && (l.fwd[0].Rel? && x.Pub? ==> x.id !in Past(l)))
  }

  lemma ReceiveRelKeeps(l: Link, id: PacketId, outcome: Outcome)
    requires Popped(l, Comp(id)) && l.fwd[0] == Rel(id)
    ensures TwiceInv(Received(l, outcome))
  {
    ReceiveFwd(l, outcome);
  }

  lemma ReceiveAgainKeeps(l: Link, id: PacketId, outcome: Outcome)
    requires Popped(l, Rec(id, false)) && l.fwd[0].Pub? && l.fwd[0].id == id && id in l.held
    ensures TwiceInv(Received(l, outcome))
  {
  }

  lemma ReceiveNewKeeps(l: Link, id: PacketId, n: nat, outcome: Outcome)
    requires Popped(l, Rec(id, false)) && l.fwd[0] == Pub(id, n) && id !in l.held && !outcome.Refused?
    ensures TwiceInv(Received(l, outcome))
  {
    ReceiveFwd(l, outcome);
    ReceiveNewHistory(l, id, n, outcome);
  }

  /** What the receiver notes of a message it sees first. */
  lemma ReceiveNewHistory(l: Link, id: PacketId, n: nat, outcome: Outcome)
    requires Owned(l) && InUse(l) && HistoryOk(l) && Twice(l, id) && l.owner[id] == n
    requires l.fwd != [] && l.fwd[0] == Pub(id, n) && id !in l.held && id !in Past(l)
    ensures HistoryOk(Received(l, outcome))
  {
    assert id in Ids(l.s.queue);
    assert forall i :: i in l.owner && i != id ==> l.owner[i] != n;
  }

  lemma ReceiveRefusedKeeps(l: Link, id: PacketId, n: nat)
    requires Popped(l, Rec(id, true)) && l.fwd[0] == Pub(id, n) && id !in l.held && Sound(l, Receive(Refused))
    ensures TwiceInv(Received(l, Refused))
  {
    ReceiveFwd(l, Refused);
    ReceiveRefusedBwd(l, id, n);
    ReceiveNewHistory(l, id, n, Refused);
  }

  lemma ReceiveRefusedBwd(l: Link, id: PacketId, n: nat)
    requires BwdOk(l) && TodoOk(l) && StagedOk(l) && Owned(l) && InUse(l) && FwdOk(l)
    requires l.fwd != [] && l.fwd[0] == Pub(id, n) && l.fwd[0] in l.fwd && id !in l.held && Sound(l, Receive(Refused))
    requires BwdOrdered(l.bwd + [Rec(id, true)], Ids(l.s.queue), Past(l))
    ensures BwdOk(Received(l, Refused))
  {
  }

  lemma ReceiveOnceKeeps(l: Link, id: PacketId, n: nat, outcome: Outcome)
    requires Popped(l, Ack(id)) && l.fwd[0] == Pub1(id, n)
    ensures TwiceInv(Received(l, outcome))
  {
    ReceiveOnceChannels(l, id, n, outcome);
  }

  lemma ReceiveOnceChannels(l: Link, id: PacketId, n: nat, outcome: Outcome)
    requires FwdOk(l) && BwdOk(l) && l.fwd != [] && l.fwd[0] == Pub1(id, n)
    requires FwdOrdered(l.fwd[1..], Ids(l.s.queue), Past(l)) && BwdOrdered(l.bwd + [Ack(id)], Ids(l.s.queue), Past(l))
    ensures FwdOk(Received(l, outcome)) && BwdOk(Received(l, outcome))
  {
    assert forall x :: x in l.fwd[1..] ==> x in l.fwd;
  }

  lemma ReplyKeeps(l: Link)
    requires TwiceInv(l) && AcksOnce(l) && Possible(l, HandleReply)
    ensures TwiceInv(ReplyHandled(l))
  {
    var queued, r := Ids(l.s.queue), l.bwd[0];
    BwdPop(l.bwd, queued, Past(l));
    assert forall x :: x in l.bwd <==> x == r || x in l.bwd[1..];
    AccountedClear(Whole(l), r.id);
    var l' := ReplyHandled(l);
    BwdShift(l.bwd[1..], queued, Past(l), Ids(l'.s.queue), Past(l'));
    FwdShift(l.fwd, queued, Past(l), Ids(l'.s.queue), Past(l'));
    match r
    case Comp(id) => ReplyCompKeeps(l, id);
    case Rec(id, isError) => if isError { ReplyRefusedKeeps(l, id); } else { ReplyRecKeeps(l, id); }
    case Ack(id) => ReplyAckKeeps(l, id);
  }

  /** What ReplyKeeps knows of the channels in each of its cases. */
  ghost predicate ReplyPopped(l: Link, r: Reply)
    requires l.bwd != []
  {
    var l' := ReplyHandled(l);
    && TwiceInv(l) && l.bwd[0] == r && l.phase != Sending && l.releasing == {}
    && (forall x :: x in l.bwd <==> x == r || x in l.bwd[1..])
    && BwdOrdered(l'.bwd, Ids(l'.s.queue), Past(l'))
    && FwdOrdered(l'.fwd, Ids(l'.s.queue), Past(l'))
    && (forall x :: x in l.bwd[1..] && x.id == r.id ==>
              && (r.Rec? && x.Comp? ==> x.id !in Ids(l.s.queue))
              && (r.Comp? && x.Rec? ==> x.id !in Past(l))
              && (r.Rec? && x.Rec? ==> !r.isError && !x.isError))
    && DistinctIds(EraseId(l.s.queue, r.id)) && Ids(EraseId(l.s.queue, r.id)) == Ids(l.s.queue) - {r.id}
    && (r.id !in Ids(l.s.queue) ==> EraseId(l.s.queue, r.id) == l.s.queue)
  }

  lemma ReplyCompKeeps(l: Link, id: PacketId)
    requires l.bwd != [] && ReplyPopped(l, Comp(id))
    ensures TwiceInv(ReplyHandled(l))
  {
    ReplyCompKeepsHistory(l, id);
  }

  lemma ReplyCompKeepsHistory(l: Link, id: PacketId)
    requires l.bwd != [] && ReplyPopped(l, Comp(id))
    ensures HistoryOk(ReplyHandled(l))
  {
  }

  lemma ReplyRecKeeps(l: Link, id: PacketId)
    requires l.bwd != [] && ReplyPopped(l, Rec(id, false))
    ensures TwiceInv(ReplyHandled(l))
  {
    ReplyRecKeepsChannels(l, id);
  }

  lemma ReplyRecKeepsChannels(l: Link, id: PacketId)
    requires l.bwd != [] && ReplyPopped(l, Rec(id, false))
    ensures var l' := ReplyHandled(l); FwdOk(l') && TodoOk(l') && BwdOk(l')
  {
  }

  lemma ReplyRefusedKeeps(l: Link, id: PacketId)
    requires l.bwd != [] && ReplyPopped(l, Rec(id, true))
    ensures TwiceInv(ReplyHandled(l))
  {
  }

  lemma ReplyAckKeeps(l: Link, id: PacketId)
    requires l.bwd != [] && ReplyPopped(l, Ack(id)) && !Twice(l, id)
    ensures TwiceInv(ReplyHandled(l))
  {
  }

  lemma ReleaseKeeps(l: Link, id: PacketId)
    requires TwiceInv(l) && Possible(l, Release(id))
    ensures TwiceInv(Releasing(l, id)) && Past(Releasing(l, id)) == Past(l)
  {
    assert Past(Releasing(l, id)) == Past(l);
    FwdPush(l.fwd, Rel(id), Ids(l.s.queue), Past(l));
  }

  lemma CopiedMembers(queue: seq<Entry>, owner: map<PacketId, nat>, single: set<nat>, releases: seq<PacketId>, p: Packet)
    requires p in Copied(queue, owner, single, releases) && Ids(queue) <= owner.Keys
    ensures if p.Rel? then p.id in releases else p.id in Ids(queue) && p == PubFor(p.id, owner[p.id], single)
  {
  }

  lemma CopyTodo(l: Link, verdict: Entry -> bool, releases: seq<PacketId>)
    requires InUse(l) && Owned(l) && (forall p :: p in l.staged ==> !p.Pub?) && Lists(releases, l.s.outgoing)
    ensures TodoOk(CopyMade(l, verdict, releases))
    ensures forall p :: p in CopyMade(l, verdict, releases).todo ==>
      p.Pub1? ==> p.n in l.single && p.id in CopyMade(l, verdict, releases).owner && l.owner[p.id] == p.n
  {
    var s := QosState.Resend(l.s, verdict);
    KeptMembers(l.s.queue, l.s.quota, verdict);
    ListsMembers(releases, l.s.outgoing);
    CopiedOk(l, s, releases);
    var l' := CopyMade(l, verdict, releases);
    assert l'.todo == Copied(s.queue, l.owner, l.single, releases) && Past(l') == Past(l);
    assert forall id :: id in Ids(s.queue) ==> id in l'.owner && l'.owner[id] == l.owner[id];
  }

  /** The packets copied for the messages that stay, and for the ids past PUBREC. */
  lemma CopiedOk(l: Link, s: QosData, releases: seq<PacketId>)
    requires InUse(l) && Owned(l) && Ids(s.queue) <= Ids(l.s.queue) && (set id | id in releases) == l.s.outgoing
    ensures forall p :: p in Copied(s.queue, l.owner, l.single, releases) ==>
      if p.Rel? then p.id in l.s.outgoing
      else p.id in Ids(s.queue) && p.id in l.owner && p.n == l.owner[p.id] && (p.Pub1? <==> p.n in l.single)
  {
    forall p | p in Copied(s.queue, l.owner, l.single, releases)
      ensures if p.Rel? then p.id in l.s.outgoing
              else p.id in Ids(s.queue) && p.id in l.owner && p.n == l.owner[p.id] && (p.Pub1? <==> p.n in l.single)
    {
      CopiedMembers(s.queue, l.owner, l.single, releases, p);
    }
  }

  /** Dropping queued messages that are not under way, and their ids, keeps everything but the list to send. */
  lemma DropKeeps(l: Link, s: QosData)
    requires InUse(l) && Owned(l) && FwdOk(l) && BwdOk(l) && HistoryOk(l)
    requires Drops(l, s) && forall id :: id in Ids(l.s.queue) - Ids(s.queue) ==> !UnderWay(l, id)
    ensures var l' := Dropping(l, s); Owned(l') && FwdOk(l') && BwdOk(l') && HistoryOk(l')
  {
    var l' := Dropping(l, s);
    FwdShift(l.fwd, Ids(l.s.queue), Past(l), Ids(s.queue), Past(l'));
    BwdShift(l.bwd, Ids(l.s.queue), Past(l), Ids(s.queue), Past(l'));
  }

  ghost predicate Drops(l: Link, s: QosData) {
    && Accounted(s.(outgoing := Past(l))) && s.outgoing == l.s.outgoing && Ids(s.queue) <= Ids(l.s.queue)
    && s.usedIds == l.s.usedIds - (Ids(l.s.queue) - Ids(s.queue))
  }

  lemma CopyKeeps(l: Link, verdict: Entry -> bool, releases: seq<PacketId>)
    requires TwiceInv(l) && Possible(l, Copy(verdict, releases)) && Sound(l, Copy(verdict, releases))
    ensures TwiceInv(CopyMade(l, verdict, releases))
  {
    var s := QosState.Resend(l.s, verdict);
    ResendDrops(l, verdict);
    CopyTodo(l, verdict, releases);
    DropKeeps(l, s);
    TodoSet(Dropping(l, s), CopyMade(l, verdict, releases));
  }

  /** A new list to write matters only to a refusal that is under way. */
  lemma TodoSet(l: Link, l': Link)
    requires FwdOk(l) && BwdOk(l) && HistoryOk(l) && Owned(l) && !Refusing(l)
    requires l' == l.(todo := l'.todo, phase := l'.phase)
    ensures FwdOk(l') && BwdOk(l') && HistoryOk(l') && Owned(l')
  {
    assert Past(l') == Past(l);
  }

  lemma ResendDrops(l: Link, verdict: Entry -> bool)
    requires AllAccounted(l)
    ensures Drops(l, QosState.Resend(l.s, verdict))
  {
    AccountedResend(Whole(l), verdict);
    KeptMembers(l.s.queue, l.s.quota, verdict);
  }

  lemma SendKeeps(l: Link, accepted: bool)
    requires TwiceInv(l) && Possible(l, SendNext(accepted))
    ensures TwiceInv(Apply(l, SendNext(accepted)))
  {
    var p := l.todo[0];
    assert forall x :: x in l.todo <==> x == p || x in l.todo[1..];
    FwdPush(l.fwd, p, Ids(l.s.queue), Past(l));
  }

  lemma ExpireDrops(l: Link, cut: nat)
    requires AllAccounted(l)
    ensures Drops(l, ExpireAt(l.s, cut))
  {
    AccountedExpire(Whole(l), cut);
  }

  lemma ExpireKeeps(l: Link, cut: nat)
    requires TwiceInv(l) && Sound(l, Expire(cut))
    ensures TwiceInv(ExpireMade(l, cut))
  {
    ExpireDrops(l, cut);
    DropKeeps(l, ExpireAt(l.s, cut));
    ExpireKeepsLists(l, ExpireAt(l.s, cut));
  }

  lemma ExpireKeepsLists(l: Link, s: QosData)
    requires StagedOk(l) && TodoOk(l) && s.outgoing == l.s.outgoing
    requires forall id :: id in Ids(l.s.queue) - Ids(s.queue) ==> !ToBeWritten(l, id)
    ensures TodoOk(Dropping(l, s)) && StagedOk(Dropping(l, s))
  {
    forall p | (p in l.staged || p in l.todo) && p.Pub? ensures p.id in Ids(s.queue) {
      assert p.id in Ids(l.s.queue) && ToBeWritten(l, p.id);
    }
  }

  // ---------- QoS 1, and that no message is forgotten ----------

  lemma ForgetsNone(l: Link, l': Link)
    requires NoneForgotten(l) && l'.issued == l.issued
    requires forall i :: i in l.owner ==>
      (i in l'.owner && l'.owner[i] == l.owner[i]) || l.owner[i] in l'.completed || l.owner[i] in l'.acked || l.owner[i] in l'.denied || l.owner[i] in l'.dropped
    requires l.completed <= l'.completed && l.acked <= l'.acked && l.denied <= l'.denied && l.dropped <= l'.dropped
    ensures NoneForgotten(l')
  {
    forall n | 0 <= n < l.issued ensures n in l'.owner.Values || n in l'.completed || n in l'.acked || n in l'.denied || n in l'.dropped {
      if n in l.owner.Values {
        var i :| i in l.owner && l.owner[i] == n;
        assert (i in l'.owner && l'.owner[i] == n) || n in l'.completed || n in l'.acked || n in l'.denied || n in l'.dropped;
      }
    }
  }

  lemma DropKeepsOnce(l: Link, s: QosData, todo: seq<Packet>)
    requires OnceInv(l)
    requires todo == l.todo || forall p :: p in todo ==> p.Pub1? ==> p.n in l.single && p.id in Dropping(l, s).owner && l.owner[p.id] == p.n
    ensures OnceInv(Dropping(l, s).(todo := todo))
  {
    ForgetsNone(l, Dropping(l, s).(todo := todo));
  }

  lemma ReceiveKeepsOnce(l: Link, outcome: Outcome)
    requires OnceInv(l) && l.fwd != []
    ensures OnceInv(Received(l, outcome))
  {
    var l' := Received(l, outcome);
    assert forall x :: x in l.fwd <==> x == l.fwd[0] || x in l.fwd[1..];
    assert CarriesOwn(l, l.fwd[0]);
    ForgetsNone(l, l');
  }

  lemma ReplyKeepsOnce(l: Link)
    requires OnceInv(l) && BwdOk(l) && l.bwd != []
    ensures OnceInv(ReplyHandled(l))
  {
    var l' := ReplyHandled(l);
    assert l.bwd[0] in l.bwd && forall x :: x in l.bwd[1..] ==> x in l.bwd;
    ForgetsNone(l, l');
  }

  lemma PacketsKeepOnce(l: Link, l': Link)
    requires OnceInv(l)
    requires l' == l.(s := l'.s, releasing := l'.releasing, phase := l'.phase, fwd := l'.fwd, bwd := l'.bwd, todo := l'.todo, staged := l'.staged)
    requires forall p :: p in l'.fwd || p in l'.todo || p in l'.staged ==> p.Rel? || p in l.fwd || p in l.todo || p in l.staged
    requires forall r :: r in l'.bwd ==> r in l.bwd
    ensures OnceInv(l')
  {
    ForgetsNone(l, l');
  }

  /** Only issuing an id while a QoS 1 packet about it is under way breaks what holds of QoS 1. */
  lemma StepKeepsOnce(l: Link, ev: Event)
    requires Inv(l) && Possible(l, ev) && Sound(l, ev)
    ensures OnceInv(Apply(l, ev))
  {
    match ev
    case QueueMessage(publish, topicOverride, maxBytes, writes) => QueueKeeps(l, publish, topicOverride, maxBytes, writes);
    case Receive(outcome) => ReceiveKeepsOnce(l, outcome);
    case HandleReply => ReplyKeepsOnce(l);
    case Copy(verdict, releases) => CopyKeepsOnce(l, verdict, releases);
    case Expire(cut) => DropKeepsOnce(l, ExpireAt(l.s, cut), l.todo);
    case WriteMessage(_, _) => PacketsKeepOnce(l, Apply(l, ev));
    case Release(_) => PacketsKeepOnce(l, Apply(l, ev));
    case Attach => PacketsKeepOnce(l, Apply(l, ev));
    case Connect(_) => PacketsKeepOnce(l, Apply(l, ev));
    case SendNext(_) => PacketsKeepOnce(l, Apply(l, ev));
    case Disconnect => PacketsKeepOnce(l, Apply(l, ev));
  }

  lemma CopyKeepsOnce(l: Link, verdict: Entry -> bool, releases: seq<PacketId>)
    requires Inv(l) && Possible(l, Copy(verdict, releases)) && Sound(l, Copy(verdict, releases))
    ensures OnceInv(CopyMade(l, verdict, releases))
  {
    CopyTodo(l, verdict, releases);
    DropKeepsOnce(l, QosState.Resend(l.s, verdict), CopyMade(l, verdict, releases).todo);
    PacketsKeepOnce(Dropping(l, QosState.Resend(l.s, verdict)).(todo := CopyMade(l, verdict, releases).todo), CopyMade(l, verdict, releases));
  }

  // ---------- all steps ----------

  /** No possible, sound step breaks the invariant. */
  lemma StepKeeps(l: Link, ev: Event)
    requires Inv(l) && Possible(l, ev) && Sound(l, ev)
    ensures Inv(Apply(l, ev))
  {
    StepKeepsOnce(l, ev);
    StepKeepsTwice(l, ev);
  }

  lemma StepKeepsTwice(l: Link, ev: Event)
    requires Inv(l) && Possible(l, ev) && Sound(l, ev)
    ensures TwiceInv(Apply(l, ev))
  {
    match ev
    case QueueMessage(publish, topicOverride, maxBytes, writes) => QueueKeeps(l, publish, topicOverride, maxBytes, writes);
    case WriteMessage(p, accepted) => WriteKeeps(l, p, accepted);
    case Receive(outcome) => ReceiveKeeps(l, outcome);
    case HandleReply => AcksAreOnce(l); ReplyKeeps(l);
    case Release(id) => ReleaseKeeps(l, id);
    case Attach => ConnectKeeps(l, ev);
    case Connect(_) => ConnectKeeps(l, ev);
    case Copy(verdict, releases) => CopyKeeps(l, verdict, releases);
    case SendNext(accepted) => SendKeeps(l, accepted);
    case Disconnect => DisconnectKeeps(l);
    case Expire(cut) => ExpireKeeps(l, cut);
  }

  lemma ConnectKeeps(l: Link, ev: Event)
    requires TwiceInv(l) && Possible(l, ev) && (ev.Attach? || ev.Connect?)
    ensures TwiceInv(Apply(l, ev))
  {
    assert Past(Apply(l, ev)) == Past(l);
  }

  lemma AcksAreOnce(l: Link)
    requires OnceOk(l)
    ensures AcksOnce(l)
  {
  }

  lemma DisconnectKeeps(l: Link)
    requires TwiceInv(l) && Possible(l, Disconnect)
    ensures TwiceInv(Apply(l, Disconnect))
  {
    assert FwdOrdered([], Ids(l.s.queue), Past(l));
    assert BwdOrdered([], Ids(l.s.queue), Past(l));
  }

  // ---------- and no other step does ----------

  /** The conditions are exact: a step that does not meet them breaks the invariant. */
  lemma StepKeepsExactly(l: Link, ev: Event)
    requires Inv(l) && Possible(l, ev)
    ensures Inv(Apply(l, ev)) <==> Sound(l, ev)
  {
    if Sound(l, ev) {
      StepKeeps(l, ev);
    } else {
      match ev
      case QueueMessage(publish, topicOverride, maxBytes, writes) => QueueKeeps(l, publish, topicOverride, maxBytes, writes);
      case Copy(verdict, releases) => UnsoundCopy(l, verdict, releases);
      case Expire(cut) => if TwiceInv(ExpireMade(l, cut)) { KeptExpire(l, cut); }
      case Receive(outcome) => UnsoundRefusal(l);
    }
  }

  lemma KeptDrop(l: Link, l': Link)
    requires InUse(l) && Owned(l) && StagedOk(l) && FwdOk(l) && BwdOk(l) && TodoOk(l) && l'.s.outgoing == l.s.outgoing
    requires l' == Dropping(l, l'.s).(todo := l'.todo, phase := l'.phase)
    requires FwdOk(l') && BwdOk(l') && StagedOk(l') && TodoOk(l')
    ensures forall id :: id in Ids(l.s.queue) - Ids(l'.s.queue) ==> !UnderWay(l, id)
    ensures forall p :: p in l.staged && p.Pub? ==> p.id in Ids(l'.s.queue)
    ensures l.todo == l'.todo ==> forall id :: id in Ids(l.s.queue) - Ids(l'.s.queue) ==> !ToBeWritten(l, id)
  {
  }

  lemma KeptExpire(l: Link, cut: nat)
    requires TwiceInv(l) && TwiceInv(ExpireMade(l, cut))
    ensures Sound(l, Expire(cut))
  {
    KeptDrop(l, ExpireMade(l, cut));
  }

  lemma UnsoundCopy(l: Link, verdict: Entry -> bool, releases: seq<PacketId>)
    requires TwiceInv(l) && !Sound(l, Copy(verdict, releases))
    ensures !TwiceInv(CopyMade(l, verdict, releases))
  {
    var l' := CopyMade(l, verdict, releases);
    if TwiceInv(l') {
      KeptDrop(l, l');
      forall id | id in Ids(l'.s.queue) ensures PubFor(id, l.owner[id], l.single) in l'.todo {
        CopiedHas(l'.s.queue, l.owner, l.single, releases, id);
      }
    }
  }

  lemma CopiedHas(queue: seq<Entry>, owner: map<PacketId, nat>, single: set<nat>, releases: seq<PacketId>, id: PacketId)
    requires id in Ids(queue) && id in owner
    ensures PubFor(id, owner[id], single) in Copied(queue, owner, single, releases)
  {
    var k :| 0 <= k < |queue| && queue[k].id == id;
    assert Copied(queue, owner, single, releases)[k] == PubFor(id, owner[id], single);
  }

  lemma UnsoundRefusal(l: Link)
    requires TwiceInv(l) && l.fwd != [] && !Sound(l, Receive(Refused))
    ensures !TwiceInv(Received(l, Refused))
  {
    var l' := Received(l, Refused);
    assert l'.bwd[|l.bwd|] == Rec(l.fwd[0].id, true);
  }

  // ---------- runs ----------

  datatype Mode = SoundRun | LosslessRun

  /** Nothing is dropped by resend or expiry, and the receiver refuses nothing. */
  predicate Lossless(l: Link, ev: Event) {
    match ev
    case Copy(verdict, _) => QosState.Resend(l.s, verdict).queue == l.s.queue
    case Expire(cut) => DropDue(l.s.queue, cut) == l.s.queue
    case Receive(outcome) => outcome.Forwarded?
    case _ => true
  }

  predicate Meets(mode: Mode, l: Link, ev: Event) {
    && Sound(l, ev)
    && (mode == LosslessRun ==> Lossless(l, ev))
  }

  /** Where the events lead, if they can happen one after the other, every one the way `mode` asks for. */
  ghost function Run(mode: Mode, l: Link, events: seq<Event>): Option<Link>
    decreases |events|
  {
    if events == [] then Some(l)
    else if Possible(l, events[0]) && Meets(mode, l, events[0]) then Run(mode, Apply(l, events[0]), events[1..])
    else None
  }

  ghost predicate Leads(mode: Mode, l: Link, events: seq<Event>, l': Link) {
    Run(mode, l, events) == Some(l')
  }

  lemma {:induction false} RunKeeps(mode: Mode, l: Link, events: seq<Event>, l': Link)
    requires Inv(l) && Leads(mode, l, events, l')
    ensures Inv(l')
    decreases |events|
  {
    if events != [] {
      StepKeeps(l, events[0]);
      RunKeeps(mode, Apply(l, events[0]), events[1..], l');
    }
  }

  /**
   At most once, and exactly when once: in every state that a sound run reaches, through any
   disconnects, reconnects, resends, drops and refusals, the receiver has forwarded no message twice;
   and of the messages whose handshake is complete it has forwarded exactly those that it did not
   refuse and that were not queued under an id it still held.
   */
  lemma DeliveredAtMostOnce(maxPending: PacketId, events: seq<Event>, l: Link)
    requires Leads(SoundRun, Fresh(maxPending), events, l)
    ensures forall n :: multiset(l.log)[n] <= 1
    ensures forall n :: n in l.completed ==> (n in l.log <==> n !in l.stale && n !in l.denied)
  {
    InitInv(maxPending);
    RunKeeps(SoundRun, Fresh(maxPending), events, l);
  }

  /** When a PUBCOMP frees an id, the receiver does not hold it. */
  lemma FreedIdIsNotHeld(maxPending: PacketId, events: seq<Event>, l: Link, id: PacketId)
    requires Leads(SoundRun, Fresh(maxPending), events, l)
    requires l.bwd != [] && l.bwd[0] == Comp(id) && id in l.s.outgoing
    ensures id !in l.held
  {
    InitInv(maxPending);
    RunKeeps(SoundRun, Fresh(maxPending), events, l);
    assert l.bwd[0] in l.bwd;
  }

  // ---------- runs without drops ----------

  /** The receiver holds only ids in use. */
  ghost predicate NothingStale(l: Link) {
    l.held <= l.s.usedIds && l.stale == {} && l.denied == {}
  }

  lemma LosslessStep(l: Link, ev: Event)
    requires Inv(l) && NothingStale(l) && Possible(l, ev) && Sound(l, ev) && Lossless(l, ev)
    ensures NothingStale(Apply(l, ev))
  {
    match ev
    case QueueMessage(publish, topicOverride, maxBytes, writes) => QueueClaims(l, publish, topicOverride, maxBytes, writes);
    case Receive(_) => assert l.fwd[0] in l.fwd;
    case HandleReply =>
      assert l.bwd[0] in l.bwd;
      AccountedClear(l.s, l.bwd[0].id);
    case _ =>
  }

  lemma {:induction false} LosslessRunKeeps(l: Link, events: seq<Event>, l': Link)
    requires Inv(l) && NothingStale(l) && Leads(LosslessRun, l, events, l')
    ensures NothingStale(l')
    decreases |events|
  {
    if events != [] {
      StepKeeps(l, events[0]);
      LosslessStep(l, events[0]);
      LosslessRunKeeps(Apply(l, events[0]), events[1..], l');
    }
  }

  /**
   Exactly once: in a run without drops every message whose handshake is complete was forwarded
   exactly once, and an id that can be claimed next is not held by the receiver, so that a new
   message is never mistaken for a duplicate.
   */
  lemma DeliveredExactlyOnce(maxPending: PacketId, events: seq<Event>, l: Link)
    requires Leads(LosslessRun, Fresh(maxPending), events, l)
    ensures forall n :: multiset(l.log)[n] <= 1
    ensures forall n :: n in l.completed ==> multiset(l.log)[n] == 1
    ensures forall id :: Usable(id, l.s.usedIds) ==> id !in l.held
  {
    InitInv(maxPending);
    RunKeeps(LosslessRun, Fresh(maxPending), events, l);
    LosslessRunKeeps(Fresh(maxPending), events, l);
  }

  // ---------- QoS 1 ----------

  /**
   At least once: in every state that a sound run reaches, a QoS 1 message that was acknowledged was
   forwarded, unless the receiver refused it; and any message at all that was queued is queued still or
   in its handshake, to be sent again on the next connection, unless its exchange is over or it was
   dropped.
   */
  lemma DeliveredAtLeastOnce(maxPending: PacketId, events: seq<Event>, l: Link)
    requires Leads(SoundRun, Fresh(maxPending), events, l)
    ensures forall n :: n in l.acked ==> n in l.arrived || n in l.refused
    ensures forall n :: 0 <= n < l.issued ==>
      || n in l.completed || n in l.acked || n in l.denied || n in l.dropped
      || exists id :: id in l.owner && l.owner[id] == n && (id in Ids(l.s.queue) || id in Past(l))
  {
    InitInv(maxPending);
    RunKeeps(SoundRun, Fresh(maxPending), events, l);
    forall n | 0 <= n < l.issued && n in l.owner.Values
      ensures exists id :: id in l.owner && l.owner[id] == n && (id in Ids(l.s.queue) || id in Past(l))
    {
      var id :| id in l.owner && l.owner[id] == n;
      assert id in l.s.usedIds;
    }
  }

  // ---------- why the conditions are needed ----------

  /** One sound step more. */
  lemma {:induction false} Then(l: Link, events: seq<Event>, m: Link, ev: Event, m': Link) returns (more: seq<Event>)
    requires Leads(SoundRun, l, events, m) && Possible(m, ev) && Sound(m, ev) && Apply(m, ev) == m'
    ensures Leads(SoundRun, l, more, m') && more == events + [ev]
    decreases |events|
  {
    more := events + [ev];
    if events == [] {
      assert more == [ev] && [ev][1..] == [];
    } else {
      var rest := Then(Apply(l, events[0]), events[1..], m, ev, m');
      assert more[0] == events[0] && more[1..] == events[1..] + [ev];
    }
  }

  lemma Start(l: Link) returns (none: seq<Event>)
    ensures none == [] && Leads(SoundRun, l, none, l)
  {
    none := [];
  }

  /** The first step of a run, and the rest of it; and any other rest. */
  lemma FirstStep(l: Link, events: seq<Event>, l': Link, other: seq<Event>, l2: Link) returns (next: Link)
    requires events != [] && Leads(SoundRun, l, events, l')
    ensures Leads(SoundRun, next, events[1..], l')
    ensures Leads(SoundRun, next, other, l2) ==> Leads(SoundRun, l, [events[0]] + other, l2)
  {
    next := Apply(l, events[0]);
    assert ([events[0]] + other)[1..] == other;
  }

  lemma {:induction false} LeadsThrough(l: Link, first: seq<Event>, middle: Link, second: seq<Event>, l': Link)
    requires Leads(SoundRun, l, first, middle) && Leads(SoundRun, middle, second, l')
    ensures Leads(SoundRun, l, first + second, l')
    decreases |first|
  {
    if first == [] {
      assert first + second == second;
    } else {
      var next := FirstStep(l, first, middle, first[1..] + second, l');
      LeadsThrough(next, first[1..], middle, second, l');
      assert first + second == [first[0]] + (first[1..] + second);
    }
  }

  function Sender(quota: int, queue: seq<Entry>, outgoing: set<PacketId>, used: set<PacketId>): QosData {
    QosData(used, queue, 1, quota, 9, {}, outgoing)
  }

  /** A link of which one message, under id 1, was queued. */
  function OneMessage(s: QosData, phase: Phase, single: set<nat>): Link {
    Link(s, {}, {}, phase, [], [], [], {}, if 1 in s.usedIds then map[1 := 0] else map[], 1, {}, [], {}, {}, {}, single, {}, {}, {})
  }

  /** A sender that connected with receive maximum 9 and, before the resend ran, queued a message. */
  function QueuedOne(e: Entry): Link {
    OneMessage(Sender(8, [e], {}, {1}), Window, Kind(e))
  }

  function Kind(e: Entry): set<nat> {
    if e.publish.qos == 1 then {0} else {}
  }

  lemma QueueInWindow(e: Entry) returns (events: seq<Event>)
    requires e == Entry(1, e.publish, None) && e.publish.qos in {1, 2}
    ensures Leads(SoundRun, Fresh(9), events, QueuedOne(e).(staged := {PubFor(1, 0, Kind(e))}))
  {
    var l, l' := Apply(Fresh(9), Connect(9)), QueuedOne(e).(staged := {PubFor(1, 0, Kind(e))});
    QueueFirst(e, l);
    events := Start(Fresh(9));
    events := Then(Fresh(9), events, Fresh(9), Connect(9), l);
    events := Then(Fresh(9), events, l, QueueMessage(e.publish, None, 1, true), l');
  }

  lemma QueueFirst(e: Entry, l: Link)
    requires e == Entry(1, e.publish, None) && e.publish.qos in {1, 2} && l == Apply(Fresh(9), Connect(9))
    ensures var ev := QueueMessage(e.publish, None, 1, true);
      Possible(l, ev) && Sound(l, ev) && Apply(l, ev) == QueuedOne(e).(staged := {PubFor(1, 0, Kind(e))})
  {
    assert UsableAfter({}, 0, 1);
    assert Usable(1, l.s.usedIds) && SomeIdLeft(l.s.usedIds);
    assert Queued(l, e.publish, None, 1, true).s.queue == [e];
  }

  /** The state after the resend has copied the message. */
  function CopiedOne(e: Entry): Link {
    QueuedOne(e).(s := Sender(7, [e], {}, {1}), phase := Sending, todo := [PubFor(1, 0, Kind(e))])
  }

  lemma CopyOne(e: Entry, keep: Entry -> bool, staged: set<Packet>, fwd: seq<Packet>)
    requires e == Entry(1, e.publish, None) && keep(e)
    ensures CopyMade(QueuedOne(e).(staged := staged, fwd := fwd), keep, []) == CopiedOne(e).(staged := staged, fwd := fwd)
    ensures Lists([], {})
  {
    var l := QueuedOne(e).(staged := staged, fwd := fwd);
    assert [e][1..] == [];
    assert Allowed([e], keep) == [e] && Kept([e], 8, keep) == [e];
    assert QosState.Resend(l.s, keep) == Sender(7, [e], {}, {1}) by { assert Ids([e]) - Ids([e]) == {}; }
    assert Copied([e], map[1 := 0], Kind(e), []) == [PubFor(1, 0, Kind(e))];
    assert Dropping(l, Sender(7, [e], {}, {1})) == l.(s := Sender(7, [e], {}, {1}));
  }

  // ---------- a resend between queueing and writing ----------

  /** The exchange for one QoS 2 message that sits in the sender's list, while a thread still has its write to do. */
  lemma ExchangeToPubRec(e: Entry) returns (events: seq<Event>, l': Link)
    requires e == Entry(1, e.publish, None) && e.publish.qos != 1
    ensures Leads(SoundRun, CopiedOne(e).(staged := {Pub(1, 0)}), events, l')
    ensures l' == OneMessage(Sender(7, [], {1}, {1}), Online, {}).(held := {1}, fwd := [Rel(1)], staged := {Pub(1, 0)}, log := [0])
  {
    var l3 := CopiedOne(e).(staged := {Pub(1, 0)});
    var l4 := l3.(phase := Online, todo := [], fwd := [Pub(1, 0)]);
    var l5 := l4.(fwd := [], held := {1}, bwd := [Rec(1, false)], log := [0]);
    var l6 := l5.(bwd := [], s := Sender(7, [], {}, {1}), releasing := {1});
    l' := OneMessage(Sender(7, [], {1}, {1}), Online, {}).(held := {1}, fwd := [Rel(1)], staged := {Pub(1, 0)}, log := [0]);
    EraseOnly(e);
    events := Start(l3);
    events := Then(l3, events, l3, SendNext(true), l4);
    events := Then(l3, events, l4, Receive(Forwarded), l5);
    events := Then(l3, events, l5, HandleReply, l6);
    events := Then(l3, events, l6, Release(1), l');
  }

  lemma EraseOnly(e: Entry)
    ensures EraseId([e], e.id) == [] && Ids([e]) == {e.id}
  {
    assert [e][1..] == [] && e in [e];
  }

  lemma ExchangeToEnd(l: Link) returns (events: seq<Event>, l': Link)
    requires l == OneMessage(Sender(7, [], {1}, {1}), Online, {}).(held := {1}, fwd := [Rel(1)], staged := {Pub(1, 0)}, log := [0])
    ensures Leads(SoundRun, l, events, l') && l'.log == [0, 0]
  {
    var l7 := l.(held := {}, fwd := [], bwd := [Comp(1)]);
    var l8 := OneMessage(Sender(8, [], {}, {}), Online, {}).(staged := {Pub(1, 0)}, log := [0], completed := {0});
    var l9 := l8.(staged := {}, fwd := [Pub(1, 0)]);
    l' := Apply(l9, Receive(Forwarded));
    events := Start(l);
    events := Then(l, events, l, Receive(Forwarded), l7);
    events := Then(l, events, l7, HandleReply, l8);
    events := Then(l, events, l8, WriteMessage(Pub(1, 0), true), l9);
    events := Then(l, events, l9, Receive(Forwarded), l');
  }

  /**
   One unsound step is enough: when the resend's locked section runs between a publishing thread's
   queueing and its write, the receiver can forward the message twice.
   */
  lemma CopyBeforeWriteDuplicates(publish: Publish, keep: Entry -> bool)
    returns (before: seq<Event>, l: Link, after: seq<Event>, l': Link)
    requires keep(Entry(1, publish, None)) && publish.qos == 2
    ensures Leads(SoundRun, Fresh(9), before, l)
    ensures Possible(l, Copy(keep, [])) && !Sound(l, Copy(keep, [])) && l.staged != {}
    ensures Leads(SoundRun, Apply(l, Copy(keep, [])), after, l')
    ensures multiset(l'.log)[0] == 2
  {
    var e := Entry(1, publish, None);
    before := QueueInWindow(e);
    l := QueuedOne(e).(staged := {Pub(1, 0)});
    assert Pub(1, 0) in l.staged;
    CopyOne(e, keep, {Pub(1, 0)}, []);
    var start, l6 := ExchangeToPubRec(e);
    var end;
    end, l' := ExchangeToEnd(l6);
    LeadsThrough(CopiedOne(e).(staged := {Pub(1, 0)}), start, l6, end, l');
    after := start + end;
  }

  // ---------- an answer for an id that is free ----------

  /** Nothing is in use and nothing is going on, but that a PUBCOMP or a PUBACK for this id is about to arrive. */
  ghost predicate Idle(l: Link, id: PacketId) {
    && l.s.queue == [] && l.s.usedIds == {} && 0 < l.s.quota <= l.s.ceiling && l.s.nextPacketId > 0 && id > 0
    && l.releasing == {} && l.held == {} && l.phase == Online && l.fwd == [] && l.todo == [] && l.staged == {} && l.owner == map[]
    && (forall n :: n in l.log || n in l.stale || n in l.denied || n in l.arrived || n in l.refused ==> n < l.issued)
    && (l.bwd == [Comp(id)] || l.bwd == [Ack(id)])
  }

  /** Which id comes after this one. */
  function After(id: PacketId): PacketId {
    if id == 0xFFFF then 1 else id + 1
  }

  /** How many ids there are before this one comes, after the last one issued. */
  function Distance(last: PacketId, id: PacketId): nat
    requires last > 0 && id > 0
  {
    if last < id then id - last else id + 0xFFFF - last
  }

  lemma QueueNext(l: Link, publish: Publish, id: PacketId)
    requires Idle(l, id) && publish.qos in {1, 2}
    ensures Possible(l, QueueMessage(publish, None, 1, false))
    ensures var next := After(l.s.nextPacketId);
      && Queue(l.s, publish, None, 1).1 == Some(next)
      && Queued(l, publish, None, 1, false)
         == l.(s := l.s.(queue := [Entry(next, publish, None)], nextPacketId := next, quota := l.s.quota - 1, usedIds := {next}),
               owner := map[next := l.issued], issued := l.issued + 1,
               single := if publish.qos == 1 then l.single + {l.issued} else l.single)
  {
    var last, used, next := l.s.nextPacketId, l.s.usedIds, After(l.s.nextPacketId);
    assert Usable(next, used);
    if last == 0xFFFF {
      assert !UsableAfter(used, last, 1) && UsableAfter(used, last, 2);
      assert StepsToFree(used, last, 1) == 2;
    } else {
      assert UsableAfter(used, last, 1) && StepsToFree(used, last, 1) == 1;
    }
    assert used + {next} == {next};
    assert Claim(l.s) == (l.s.(nextPacketId := next, quota := l.s.quota - 1, usedIds := {next}), Some(next));
  }

  predicate DueMessage(publish: Publish, cut: nat) {
    publish.qos in {1, 2} && IsDue(publish, cut)
  }

  /** What does not change while ids come round. */
  ghost predicate SameSoFar(l: Link, l': Link) {
    l'.s.outgoing == l.s.outgoing && l'.bwd == l.bwd && l.issued <= l'.issued
  }

  /** A message queued and swept moves the search for ids on by one. */
  lemma OneIdOn(l: Link, id: PacketId, due: Publish, cut: nat) returns (events: seq<Event>, l': Link)
    requires Idle(l, id) && DueMessage(due, cut) && After(l.s.nextPacketId) != id
    ensures Idle(l', id) && SameSoFar(l, l') && l'.s.nextPacketId == After(l.s.nextPacketId)
    ensures Leads(SoundRun, l, events, l')
  {
    var m := OtherIdIsSound(l, id, due);
    l' := SweptAway(l, id, due, cut);
    events := Start(l);
    events := Then(l, events, l, QueueMessage(due, None, 1, false), m);
    events := Then(l, events, m, Expire(cut), l');
  }

  lemma OtherIdIsSound(l: Link, id: PacketId, publish: Publish) returns (m: Link)
    requires Idle(l, id) && publish.qos in {1, 2} && After(l.s.nextPacketId) != id
    ensures var ev := QueueMessage(publish, None, 1, false); Possible(l, ev) && Sound(l, ev) && m == Queued(l, publish, None, 1, false)
  {
    QueueNext(l, publish, id);
    assert !About(l, After(l.s.nextPacketId));
    m := Queued(l, publish, None, 1, false);
  }

  lemma SweptAway(l: Link, id: PacketId, due: Publish, cut: nat) returns (l': Link)
    requires Idle(l, id) && DueMessage(due, cut) && After(l.s.nextPacketId) != id
    ensures var m := Queued(l, due, None, 1, false);
      Sound(m, Expire(cut)) && l' == ExpireMade(m, cut)
    ensures Idle(l', id) && SameSoFar(l, l') && l'.s.nextPacketId == After(l.s.nextPacketId)
  {
    QueueNext(l, due, id);
    var m := Queued(l, due, None, 1, false);
    assert DropDue(m.s.queue, cut) == [] by { assert m.s.queue[1..] == []; }
    assert m.s.queue[0] in m.s.queue && Ids(m.s.queue) == {After(l.s.nextPacketId)};
    l' := ExpireMade(m, cut);
  }

  /** The ids come round, until this one is next. */
  lemma {:induction false} IdsComeRound(l: Link, id: PacketId, due: Publish, cut: nat) returns (events: seq<Event>, l': Link)
    requires Idle(l, id) && DueMessage(due, cut)
    ensures Leads(SoundRun, l, events, l') && Idle(l', id) && SameSoFar(l, l') && After(l'.s.nextPacketId) == id
    decreases Distance(l.s.nextPacketId, id)
  {
    if After(l.s.nextPacketId) == id {
      events, l' := [], l;
    } else {
      var first, m := OneIdOn(l, id, due, cut);
      events, l' := IdsComeRound(m, id, due, cut);
      LeadsThrough(l, first, m, events, l');
      events := first + events;
    }
  }

  /** The message `n` counts as complete, and was not forwarded, nor refused, nor queued under an id that was held. */
  ghost predicate LostMessage(l: Link, n: nat) {
    n in l.completed && n !in l.log && n !in l.stale && n !in l.denied
  }

  /**
   A PUBCOMP for an id that is free, but noted as outgoing: when the ids have come round, a message is
   queued under the id, and the PUBCOMP completes it.
   */
  lemma LostAccountLosesMessage(l: Link, id: PacketId, due: Publish, cut: nat) returns (events: seq<Event>, l': Link, n: nat)
    requires Idle(l, id) && l.bwd == [Comp(id)] && id in l.s.outgoing && DueMessage(due, cut)
    ensures Leads(SoundRun, l, events, l') && LostMessage(l', n)
  {
    var m;
    events, m := IdsComeRound(l, id, due, cut);
    QueueNext(m, due, id);
    var q := Queued(m, due, None, 1, false);
    n, l' := m.issued, ReplyHandled(q);
    events := Then(l, events, m, QueueMessage(due, None, 1, false), q);
    events := Then(l, events, q, HandleReply, l');
  }

  /** The state after a resend dropped the only message, while it is under way. */
  function Dropped(): Link {
    OneMessage(Sender(8, [], {}, {}), Online, {}).(fwd := [Pub(1, 0)], dropped := {0})
  }

  lemma RepliesToDropped() returns (events: seq<Event>, l': Link)
    ensures Leads(SoundRun, Dropped(), events, l')
    ensures Idle(l', 1) && l'.bwd == [Comp(1)] && 1 in l'.s.outgoing
  {
    var l4 := Dropped();
    var l5 := l4.(held := {1}, log := [0], fwd := [], bwd := [Rec(1, false)]);
    var l6 := l5.(releasing := {1}, bwd := []);
    var l7 := l6.(s := Sender(8, [], {1}, {}), releasing := {}, fwd := [Rel(1)]);
    l' := Apply(l7, Receive(Forwarded));
    events := Start(l4);
    events := Then(l4, events, l4, Receive(Forwarded), l5);
    events := Then(l4, events, l5, HandleReply, l6);
    events := Then(l4, events, l6, Release(1), l7);
    events := Then(l4, events, l7, Receive(Forwarded), l');
  }

  lemma WriteInWindow(e: Entry) returns (events: seq<Event>)
    requires e == Entry(1, e.publish, None) && e.publish.qos in {1, 2}
    ensures Leads(SoundRun, Fresh(9), events, QueuedOne(e).(fwd := [PubFor(1, 0, Kind(e))]))
  {
    var p := PubFor(1, 0, Kind(e));
    events := QueueInWindow(e);
    events := Then(Fresh(9), events, QueuedOne(e).(staged := {p}), WriteMessage(p, true), QueuedOne(e).(fwd := [p]));
  }

  lemma CopyDrops(e: Entry, refuse: Entry -> bool)
    requires e == Entry(1, e.publish, None) && e.publish.qos != 1 && !refuse(e)
    ensures var l := QueuedOne(e).(fwd := [Pub(1, 0)]);
      Possible(l, Copy(refuse, [])) && !Sound(l, Copy(refuse, [])) && UnderWay(l, 1) && Apply(l, Copy(refuse, [])) == Dropped()
  {
    var l := QueuedOne(e).(fwd := [Pub(1, 0)]);
    assert Pub(1, 0) in l.fwd && e in l.s.queue;
    assert Allowed([e], refuse) == [] by { assert [e][1..] == []; }
    assert Lists([], {});
    assert Ids([e]) == {1} && QosState.Resend(l.s, refuse) == Sender(8, [], {}, {});
    assert CopyMade(l, refuse, []) == Dropped();
  }

  /**
   A resend that drops a message published since the connect, here because its ACL verdict changed,
   leaves a PUBREC under way for an id that is free; the sender then tracks a handshake that no id
   in use stands for, and when that id has come round again its PUBCOMP ends another message.
   */
  lemma DropInFlightLosesMessage(publish: Publish, refuse: Entry -> bool, due: Publish, cut: nat)
    returns (before: seq<Event>, l: Link, after: seq<Event>, l': Link, n: nat)
    requires !refuse(Entry(1, publish, None)) && publish.qos == 2 && DueMessage(due, cut)
    ensures Leads(SoundRun, Fresh(9), before, l)
    ensures Possible(l, Copy(refuse, [])) && !Sound(l, Copy(refuse, [])) && l.staged == {} && UnderWay(l, 1)
    ensures Leads(SoundRun, Apply(l, Copy(refuse, [])), after, l') && LostMessage(l', n)
  {
    var e := Entry(1, publish, None);
    before := WriteInWindow(e);
    l := QueuedOne(e).(fwd := [Pub(1, 0)]);
    CopyDrops(e, refuse);
    var start, lost := RepliesToDropped();
    after, l', n := LostAccountLosesMessage(lost, 1, due, cut);
    LeadsThrough(Dropped(), start, lost, after, l');
    after := start + after;
  }

  /** A message written before the resend ran, and copied by it, is under way twice. */
  lemma WriteThenCopy(e: Entry, keep: Entry -> bool) returns (events: seq<Event>)
    requires e == Entry(1, e.publish, None) && e.publish.qos in {1, 2} && keep(e)
    ensures var p := PubFor(1, 0, Kind(e));
      Leads(SoundRun, Fresh(9), events, CopiedOne(e).(phase := Online, todo := [], fwd := [p, p]))
  {
    events := WriteInWindow(e);
    var p := PubFor(1, 0, Kind(e));
    var l2 := QueuedOne(e).(fwd := [p]);
    var l3 := CopiedOne(e).(fwd := [p]);
    CopyOne(e, keep, {}, [p]);
    KeepsAll(e, keep);
    events := Then(Fresh(9), events, l2, Copy(keep, []), l3);
    events := Then(Fresh(9), events, l3, SendNext(true), CopiedOne(e).(phase := Online, todo := [], fwd := [p, p]));
  }

  lemma KeepsAll(e: Entry, keep: Entry -> bool)
    requires keep(e)
    ensures QosState.Resend(Sender(8, [e], {}, {1}), keep).queue == [e]
  {
    assert [e][1..] == [] && Allowed([e], keep) == [e];
  }

  /** A link after the first of two copies of its only message was refused. */
  function RefusedOne(e: Entry): Link {
    CopiedOne(e).(phase := Online, todo := [], held := {1}, fwd := [Pub(1, 0)], bwd := [Rec(1, true)], denied := {0})
  }

  /** What becomes of the second copy of a message that was refused. */
  lemma RepliesToRefused(e: Entry) returns (events: seq<Event>, l': Link)
    requires e == Entry(1, e.publish, None) && e.publish.qos != 1
    ensures Leads(SoundRun, RefusedOne(e), events, l')
    ensures Idle(l', 1) && l'.bwd == [Comp(1)] && 1 in l'.s.outgoing
  {
    var l5 := RefusedOne(e);
    var l6 := l5.(fwd := [], bwd := [Rec(1, true), Rec(1, false)]);
    var l7 := l6.(s := Sender(8, [], {}, {}), bwd := [Rec(1, false)], owner := map[]);
    var l8 := l7.(bwd := [], releasing := {1});
    var l9 := l8.(s := Sender(8, [], {1}, {}), releasing := {}, fwd := [Rel(1)]);
    l' := Apply(l9, Receive(Forwarded));
    EraseOnly(e);
    events := Start(l5);
    events := Then(l5, events, l5, Receive(Forwarded), l6);
    events := Then(l5, events, l6, HandleReply, l7);
    events := Then(l5, events, l7, HandleReply, l8);
    events := Then(l5, events, l8, Release(1), l9);
    events := Then(l5, events, l9, Receive(Forwarded), l');
  }

  /**
   A receiver that refuses the first copy of a message that is under way twice: the refusal frees the
   id, the second copy is taken for a duplicate and answered as received, and again the sender tracks
   a handshake that no id in use stands for, at the cost of a later message.
   */
  lemma RefusedCopyLosesMessage(publish: Publish, keep: Entry -> bool, due: Publish, cut: nat)
    returns (before: seq<Event>, l: Link, after: seq<Event>, l': Link, n: nat)
    requires keep(Entry(1, publish, None)) && publish.qos == 2 && DueMessage(due, cut)
    ensures Leads(SoundRun, Fresh(9), before, l)
    ensures Possible(l, Receive(Refused)) && !Sound(l, Receive(Refused)) && l.phase == Online
    ensures Leads(SoundRun, Apply(l, Receive(Refused)), after, l') && LostMessage(l', n)
  {
    var e := Entry(1, publish, None);
    before := WriteThenCopy(e, keep);
    l := CopiedOne(e).(phase := Online, todo := [], fwd := [Pub(1, 0), Pub(1, 0)]);
    assert l.fwd[1] in l.fwd[1..];
    assert Apply(l, Receive(Refused)) == RefusedOne(e);
    var start, lost := RepliesToRefused(e);
    after, l', n := LostAccountLosesMessage(lost, 1, due, cut);
    LeadsThrough(RefusedOne(e), start, lost, after, l');
    after := start + after;
  }

  /** Two PUBACKs come for a QoS 1 message that is under way twice, and the second finds its id free. */
  lemma TwoAcks(e: Entry) returns (events: seq<Event>, l': Link)
    requires e == Entry(1, e.publish, None) && e.publish.qos == 1
    ensures Leads(SoundRun, CopiedOne(e).(phase := Online, todo := [], fwd := [Pub1(1, 0), Pub1(1, 0)]), events, l')
    ensures Idle(l', 1) && l'.bwd == [Ack(1)]
  {
    var l1 := CopiedOne(e).(phase := Online, todo := [], fwd := [Pub1(1, 0), Pub1(1, 0)]);
    var l2 := l1.(fwd := [Pub1(1, 0)], bwd := [Ack(1)], arrived := {0});
    var l3 := l2.(fwd := [], bwd := [Ack(1), Ack(1)]);
    l' := l3.(s := Sender(8, [], {}, {}), bwd := [Ack(1)], owner := map[], acked := {0});
    EraseOnly(e);
    events := Start(l1);
    events := Then(l1, events, l1, Receive(Forwarded), l2);
    events := Then(l1, events, l2, Receive(Forwarded), l3);
    events := Then(l1, events, l3, HandleReply, l');
  }

  /**
   The second PUBACK, when the ids have come round and its id is issued once more: the new message counts
   as acknowledged, and was never sent.
   */
  lemma EarlyIssueLosesMessage(publish: Publish, keep: Entry -> bool, due: Publish, cut: nat)
    returns (before: seq<Event>, l: Link, l': Link, n: nat)
    requires keep(Entry(1, publish, None)) && publish.qos == 1 && DueMessage(due, cut)
    ensures Leads(SoundRun, Fresh(9), before, l)
    ensures var ev := QueueMessage(publish, None, 1, false); Possible(l, ev) && !Sound(l, ev)
    ensures Leads(SoundRun, Apply(l, QueueMessage(publish, None, 1, false)), [HandleReply], l')
    ensures n in l'.acked && n !in l'.arrived && n !in l'.refused
  {
    var e := Entry(1, publish, None);
    var l1 := CopiedOne(e).(phase := Online, todo := [], fwd := [Pub1(1, 0), Pub1(1, 0)]);
    before := WriteThenCopy(e, keep);
    var acks, l4 := TwoAcks(e);
    LeadsThrough(Fresh(9), before, l1, acks, l4);
    var round;
    round, l := IdsComeRound(l4, 1, due, cut);
    LeadsThrough(Fresh(9), before + acks, l4, round, l);
    before := before + acks + round;
    n, l' := EarlyIssue(l, publish);
  }

  lemma EarlyIssue(l: Link, publish: Publish) returns (n: nat, l': Link)
    requires Idle(l, 1) && l.bwd == [Ack(1)] && After(l.s.nextPacketId) == 1 && publish.qos == 1
    ensures var ev := QueueMessage(publish, None, 1, false);
      Possible(l, ev) && !Sound(l, ev) && Leads(SoundRun, Apply(l, ev), [HandleReply], l')
    ensures n in l'.acked && n !in l'.arrived && n !in l'.refused
  {
    QueueNext(l, publish, 1);
    assert l.bwd[0] in l.bwd;
    var q := Queued(l, publish, None, 1, false);
    n, l' := l.issued, ReplyHandled(q);
    var events := Start(q);
    events := Then(q, events, q, HandleReply, l');
    assert events == [HandleReply];
  }
}
