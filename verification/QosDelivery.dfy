/**
 That messages get through: a connection that lasts, and on which everything is accepted, ends every
 exchange. What the resend writes is stated here packet by packet.
 */
module QosDelivery {
  import opened Options
  import opened QosState
  import opened QosAccounting
  import opened QosTwoParty

  // ---------- what the resend writes ----------

  /** The list, place by place. */
  lemma CopiedAt(queue: seq<Entry>, owner: map<PacketId, nat>, single: set<nat>, releases: seq<PacketId>)
    requires Ids(queue) <= owner.Keys
    ensures var todo := Copied(queue, owner, single, releases);
      && |todo| == |queue| + |releases|
      && (forall k :: 0 <= k < |queue| ==>
            && todo[k].id == queue[k].id && !todo[k].Rel? && queue[k].id in owner && todo[k].n == owner[queue[k].id]
            && (todo[k].Pub1? <==> owner[queue[k].id] in single))
      && (forall k :: |queue| <= k < |todo| ==> todo[k] == Rel(releases[k - |queue|]))
  {
    forall k | 0 <= k < |queue| ensures queue[k].id in owner {
      assert queue[k] in queue;
    }
  }

  lemma CopiedRels(queue: seq<Entry>, owner: map<PacketId, nat>, single: set<nat>, releases: seq<PacketId>, id: PacketId)
    requires Ids(queue) <= owner.Keys
    ensures multiset(Copied(queue, owner, single, releases))[Rel(id)] == multiset(releases)[id]
  {
    var todo := Copied(queue, owner, single, releases);
    CopiedAt(queue, owner, single, releases);
    var front, back := todo[..|queue|], todo[|queue|..];
    assert todo == front + back && Rel(id) !in front;
    CountRels(back, releases, id);
  }

  lemma CopiedEachRel(queue: seq<Entry>, owner: map<PacketId, nat>, single: set<nat>, releases: seq<PacketId>, outgoing: set<PacketId>)
    requires Ids(queue) <= owner.Keys && Lists(releases, outgoing)
    ensures forall id :: multiset(Copied(queue, owner, single, releases))[Rel(id)] == if id in outgoing then 1 else 0
  {
    forall id ensures multiset(Copied(queue, owner, single, releases))[Rel(id)] == if id in outgoing then 1 else 0 {
      CopiedRels(queue, owner, single, releases, id);
    }
  }

  /**
   After the locked section of the resend the list to write has one PUBLISH for each queued message, in
   queue order, with its id, its message and its QoS, and then one PUBREL for each outgoing id.
   */
  lemma ResendWritesAll(l: Link, verdict: Entry -> bool, releases: seq<PacketId>)
    requires InUse(l) && Owned(l) && Possible(l, Copy(verdict, releases))
    ensures var l' := Apply(l, Copy(verdict, releases));
      var queue := l'.s.queue;
      && |l'.todo| == |queue| + |l.s.outgoing|
      && (forall k :: 0 <= k < |queue| ==>
            && l'.todo[k].id == queue[k].id && !l'.todo[k].Rel? && queue[k].id in l.owner && l'.todo[k].n == l.owner[queue[k].id]
            && (l'.todo[k].Pub1? <==> l.owner[queue[k].id] in l.single))
      && (forall k :: |queue| <= k < |l'.todo| ==> l'.todo[k].Rel?)
      && (forall id :: multiset(l'.todo)[Rel(id)] == if id in l.s.outgoing then 1 else 0)
  {
    var queue := QosState.Resend(l.s, verdict).queue;
    KeptMembers(l.s.queue, l.s.quota, verdict);
    ListsMembers(releases, l.s.outgoing);
    CopiedAt(queue, l.owner, l.single, releases);
    CopiedEachRel(queue, l.owner, l.single, releases, l.s.outgoing);
  }

  lemma {:induction false} CountRels(rels: seq<Packet>, ids: seq<PacketId>, id: PacketId)
    requires |rels| == |ids| && forall k :: 0 <= k < |ids| ==> rels[k] == Rel(ids[k])
    ensures multiset(rels)[Rel(id)] == multiset(ids)[id]
    decreases |ids|
  {
    if ids != [] {
      assert rels == [rels[0]] + rels[1..] && ids == [ids[0]] + ids[1..];
      CountRels(rels[1..], ids[1..], id);
    }
  }

  // ---------- work that is left ----------

  function PacketWork(p: Packet): nat {
    match p
    case Pub(_, _) => 6
    case Rel(_) => 3
    case Pub1(_, _) => 2
  }

  function ReplyWork(r: Reply): nat {
    match r
    case Rec(_, _) => 5
    case Comp(_) => 2
    case Ack(_) => 1
  }

  function FwdWork(fwd: seq<Packet>): nat {
    if fwd == [] then 0 else PacketWork(fwd[0]) + FwdWork(fwd[1..])
  }

  function BwdWork(bwd: seq<Reply>): nat {
    if bwd == [] then 0 else ReplyWork(bwd[0]) + BwdWork(bwd[1..])
  }

  lemma {:induction false} FwdWorkSnoc(fwd: seq<Packet>, p: Packet)
    ensures FwdWork(fwd + [p]) == FwdWork(fwd) + PacketWork(p)
  {
    if fwd != [] {
      FwdWorkSnoc(fwd[1..], p);
      assert (fwd + [p])[1..] == fwd[1..] + [p];
    }
  }

  lemma {:induction false} BwdWorkSnoc(bwd: seq<Reply>, r: Reply)
    ensures BwdWork(bwd + [r]) == BwdWork(bwd) + ReplyWork(r)
  {
    if bwd != [] {
      BwdWorkSnoc(bwd[1..], r);
      assert (bwd + [r])[1..] == bwd[1..] + [r];
    }
  }

  function Work(l: Link): nat {
    FwdWork(l.fwd) + BwdWork(l.bwd) + 4 * |l.releasing|
  }

  /** The exchange for this id, if it is in use, goes on by what is under way. */
  ghost predicate Carried(l: Link, id: PacketId) {
    && (id in Ids(l.s.queue) ==> (exists p :: p in l.fwd && p.id == id && !p.Rel?) || (exists r :: r in l.bwd && r.id == id && !r.Comp?))
    && (id in Past(l) ==> id in l.releasing || Rel(id) in l.fwd || Comp(id) in l.bwd || Rec(id, false) in l.bwd)
  }

  /** The receiver takes a packet and refuses nothing, or the sender handles a reply. */
  predicate OnlyMoves(ev: Event) {
    ev == Receive(Forwarded) || ev == HandleReply || ev.Release?
  }

  /** What a step that only moves exchanges on leaves alone. */
  ghost predicate MovesOn(l: Link, l': Link) {
    && l'.phase == l.phase && l'.staged == l.staged && l'.todo == l.todo && l'.issued == l.issued && l'.single == l.single
    && l'.dropped == l.dropped && l'.denied == l.denied && l'.stale == l.stale && l'.refused == l.refused
    && l'.s.usedIds <= l.s.usedIds && l.s.quota <= l'.s.quota && |l'.s.queue| <= |l.s.queue|
    && (forall id :: id in l'.owner ==> id in l.owner && l'.owner[id] == l.owner[id])
    && (forall id :: Carried(l, id) ==> Carried(l', id))
  }

  lemma ReceiveMovesOn(l: Link)
    requires l.fwd != []
    ensures var l' := Received(l, Forwarded); MovesOn(l, l') && Work(l') < Work(l)
  {
    var l' := Received(l, Forwarded);
    BwdWorkSnoc(l.bwd, l'.bwd[|l.bwd|]);
    forall id | Carried(l, id) ensures Carried(l', id) {
      ReceiveCarries(l, l', id);
    }
  }

  lemma ReceiveCarries(l: Link, l': Link, id: PacketId)
    requires Carried(l, id) && l.fwd != [] && l' == Received(l, Forwarded)
    ensures Carried(l', id)
  {
    assert forall p :: p in l.fwd <==> p == l.fwd[0] || p in l.fwd[1..];
    var r := l'.bwd[|l.bwd|];
    assert r in l'.bwd && forall x :: x in l.bwd ==> x in l'.bwd;
    assert r.id == l.fwd[0].id;
  }

  lemma ReplyMovesOn(l: Link)
    requires Inv(l) && l.bwd != [] && l.releasing == {}
    ensures var l' := ReplyHandled(l); MovesOn(l, l') && Work(l') < Work(l)
  {
    var l', r := ReplyHandled(l), l.bwd[0];
    AccountedClear(Whole(l), r.id);
    assert r in l.bwd && forall x :: x in l.bwd <==> x == r || x in l.bwd[1..];
    ReplyShrinks(l, l');
    forall id | Carried(l, id) ensures Carried(l', id) {
      ReplyCarries(l, l', id);
    }
  }

  lemma ReplyShrinks(l: Link, l': Link)
    requires l.bwd != [] && l.releasing == {} && l' == ReplyHandled(l) && l.s.quota <= l.s.ceiling
    ensures l'.s.usedIds <= l.s.usedIds && l.s.quota <= l'.s.quota && |l'.s.queue| <= |l.s.queue|
    ensures Work(l') < Work(l)
  {
    EraseIdShrinks(l.s.queue, l.bwd[0].id);
    assert |l'.releasing| <= 1;
  }

  lemma {:induction false} EraseIdShrinks(queue: seq<Entry>, id: PacketId)
    ensures |EraseId(queue, id)| <= |queue|
  {
    if queue != [] {
      EraseIdShrinks(queue[1..], id);
    }
  }

  lemma ReplyCarries(l: Link, l': Link, id: PacketId)
    requires Carried(l, id) && InUse(l) && BwdOk(l) && l.bwd != [] && l.releasing == {} && l' == ReplyHandled(l)
    requires l.bwd[0] in l.bwd && forall x :: x in l.bwd <==> x == l.bwd[0] || x in l.bwd[1..]
    requires Ids(EraseId(l.s.queue, l.bwd[0].id)) == Ids(l.s.queue) - {l.bwd[0].id}
    requires l.bwd[0].Comp? && l.bwd[0].id in l.s.outgoing ==> l.bwd[0].id in l.owner
    ensures Carried(l', id)
  {
  }

  lemma ReleaseMovesOn(l: Link, id: PacketId)
    requires id in l.releasing
    ensures var l' := Releasing(l, id); MovesOn(l, l') && Work(l') < Work(l)
  {
    var l' := Releasing(l, id);
    FwdWorkSnoc(l.fwd, Rel(id));
    assert Past(l') == Past(l) && l'.fwd[|l.fwd|] in l'.fwd && forall p :: p in l.fwd ==> p in l'.fwd;
    assert |l.releasing - {id}| == |l.releasing| - 1;
  }

  /** Every such step leaves less to do, and no exchange goes out of sight. */
  lemma MoveIsProgress(l: Link, ev: Event)
    requires Inv(l) && Possible(l, ev) && OnlyMoves(ev)
    ensures MovesOn(l, Apply(l, ev)) && Work(Apply(l, ev)) < Work(l)
  {
    match ev
    case Receive(_) => ReceiveMovesOn(l);
    case HandleReply => ReplyMovesOn(l);
    case Release(id) => ReleaseMovesOn(l, id);
  }

  /** One sound step. */
  lemma Step(l: Link, ev: Event) returns (events: seq<Event>, l': Link)
    requires Inv(l) && Possible(l, ev) && Sound(l, ev)
    ensures Leads(SoundRun, l, events, l') && l' == Apply(l, ev) && Inv(l')
  {
    StepKeeps(l, ev);
    l' := Apply(l, ev);
    events := Start(l);
    events := Then(l, events, l, ev, l');
  }

  lemma Joined(l: Link, first: seq<Event>, m: Link, second: seq<Event>, l': Link) returns (events: seq<Event>)
    requires Leads(SoundRun, l, first, m) && Leads(SoundRun, m, second, l')
    ensures Leads(SoundRun, l, events, l')
  {
    LeadsThrough(l, first, m, second, l');
    events := first + second;
  }

  /**
   However the receiver's steps and the sender's follow each other, there are no more of them than the
   work that was left at the start, and no exchange goes out of sight.
   */
  lemma {:induction false} MovesEnd(l: Link, events: seq<Event>, l': Link)
    requires Inv(l) && Leads(SoundRun, l, events, l') && forall ev :: ev in events ==> OnlyMoves(ev)
    ensures Inv(l') && MovesOn(l, l') && |events| + Work(l') <= Work(l)
    decreases |events|
  {
    if events != [] {
      MoveIsProgress(l, events[0]);
      StepKeeps(l, events[0]);
      MovesEnd(Apply(l, events[0]), events[1..], l');
    }
  }

  /** No step that moves an exchange on is possible. */
  ghost predicate Quiet(l: Link) {
    forall ev :: OnlyMoves(ev) ==> !Possible(l, ev)
  }

  /**
   When none of these steps is possible any more, every exchange whose packets were under way is over:
   its id is free.
   */
  lemma QuietIsOver(l: Link)
    requires Inv(l) && Quiet(l) && l.phase in {Window, Online}
    ensures l.fwd == [] && l.bwd == [] && l.releasing == {}
    ensures forall id :: id in l.s.usedIds ==> !Carried(l, id)
  {
    assert !Possible(l, Receive(Forwarded)) && !Possible(l, HandleReply);
    assert forall id :: Possible(l, Release(id)) <==> id in l.releasing;
    assert forall id :: OnlyMoves(Release(id));
  }

  /**
   A publishing thread's write on a connection that lasts: whatever the order in which things then happen,
   when all is quiet the exchange for the message is over.
   */
  lemma WrittenIsOver(l: Link, p: Packet, events: seq<Event>, l': Link)
    requires Inv(l) && l.phase == Online && p in l.staged && p.id in Ids(l.s.queue) && p.id in l.owner
    requires Leads(SoundRun, Apply(l, WriteMessage(p, true)), events, l') && Quiet(l')
    requires forall ev :: ev in events ==> OnlyMoves(ev)
    ensures p.id !in l'.s.usedIds
    ensures var n := l.owner[p.id]; n in l'.completed || n in l'.acked || n in l.denied || n in l.dropped
  {
    var written := Apply(l, WriteMessage(p, true));
    StepKeeps(l, WriteMessage(p, true));
    WrittenIsCarried(l, p, written);
    MovesEnd(written, events, l');
    CarriedIsOver(written, l', p.id);
  }

  lemma WrittenIsCarried(l: Link, p: Packet, l': Link)
    requires InUse(l) && StagedOk(l) && p in l.staged && p.id in Ids(l.s.queue) && l' == Apply(l, WriteMessage(p, true))
    ensures Carried(l', p.id)
  {
    assert l'.fwd[|l.fwd|] == p && p in l'.fwd;
    assert p.id !in Past(l');
  }

  lemma CarriedIsOver(l: Link, l': Link, id: PacketId)
    requires Owned(l) && Carried(l, id) && id in l.owner && MovesOn(l, l') && Inv(l') && Quiet(l') && l'.phase == Online
    ensures id !in l'.s.usedIds
    ensures var n := l.owner[id]; n in l'.completed || n in l'.acked || n in l.denied || n in l.dropped
  {
    QuietIsOver(l');
    assert forall i :: i in l'.owner && l'.owner[i] == l.owner[id] ==> i == id;
  }

  lemma MovesOnThrough(l: Link, m: Link, l': Link)
    requires MovesOn(l, m) && MovesOn(m, l')
    ensures MovesOn(l, l')
  {
  }

  /** There is such a run. */
  lemma {:induction false} Drain(l: Link) returns (events: seq<Event>, l': Link)
    requires Inv(l) && l.phase in {Window, Online}
    ensures Leads(SoundRun, l, events, l') && Inv(l') && Quiet(l') && MovesOn(l, l')
    decreases Work(l)
  {
    if Quiet(l) {
      l' := l;
      events := Start(l);
    } else {
      var ev :| OnlyMoves(ev) && Possible(l, ev);
      MoveIsProgress(l, ev);
      var first, next := Step(l, ev);
      var rest;
      rest, l' := Drain(next);
      MovesOnThrough(l, next, l');
      events := Joined(l, first, next, rest, l');
    }
  }

  // ---------- a whole connection ----------

  /** Threads that queued a message do their writes. */
  lemma {:induction false} WriteAll(l: Link) returns (events: seq<Event>, l': Link)
    requires Inv(l)
    ensures Leads(SoundRun, l, events, l') && Inv(l') && l' == l.(staged := {}, fwd := l'.fwd)
    decreases |l.staged|
  {
    if l.staged == {} {
      l' := l;
      events := Start(l);
    } else {
      var p :| p in l.staged;
      var first, next := Step(l, WriteMessage(p, true));
      assert |next.staged| == |l.staged| - 1;
      var rest;
      rest, l' := WriteAll(next);
      events := Joined(l, first, next, rest, l');
    }
  }

  /** The link once the list of the resend is written. */
  function AllSent(l: Link): Link {
    l.(todo := [], phase := Online, fwd := l.fwd + l.todo)
  }

  lemma SendOne(l: Link) returns (events: seq<Event>, l': Link)
    requires Inv(l) && l.phase == Sending && l.todo != []
    ensures Leads(SoundRun, l, events, l') && Inv(l') && AllSent(l') == AllSent(l)
    ensures |l'.todo| < |l.todo| && if l'.todo == [] then l'.phase == Online else l'.phase == Sending
  {
    events, l' := Step(l, SendNext(true));
    assert l.fwd + l.todo == l'.fwd + l'.todo;
  }

  lemma {:induction false} SendAll(l: Link) returns (events: seq<Event>)
    requires Inv(l) && if l.todo == [] then l.phase == Online else l.phase == Sending
    ensures Leads(SoundRun, l, events, AllSent(l)) && Inv(AllSent(l))
    decreases |l.todo|
  {
    if l.todo == [] {
      assert AllSent(l) == l by { assert l.fwd + [] == l.fwd; }
      events := Start(l);
    } else {
      var first, next := SendOne(l);
      var rest := SendAll(next);
      events := Joined(l, first, next, rest, AllSent(l));
    }
  }

  lemma {:induction false} SomeList(members: set<PacketId>) returns (ids: seq<PacketId>)
    ensures Lists(ids, members)
    decreases |members|
  {
    if members == {} {
      ids := [];
    } else {
      var id :| id in members;
      var rest := SomeList(members - {id});
      ids := [id] + rest;
      assert multiset(members) == multiset{id} + multiset(members - {id});
    }
  }

  /** The link after the resend has run, and its list is written. */
  function Resent(l: Link, verdict: Entry -> bool, releases: seq<PacketId>): Link {
    AllSent(CopyMade(l, verdict, releases))
  }

  /** The resend's locked section and the writes after it. */
  lemma CopyAndSend(l: Link, verdict: Entry -> bool, releases: seq<PacketId>) returns (events: seq<Event>)
    requires Inv(l) && Possible(l, Copy(verdict, releases)) && Sound(l, Copy(verdict, releases))
    ensures Leads(SoundRun, l, events, Resent(l, verdict, releases)) && Inv(Resent(l, verdict, releases))
  {
    var first, copied := Step(l, Copy(verdict, releases));
    var rest := SendAll(copied);
    events := Joined(l, first, copied, rest, Resent(l, verdict, releases));
  }

  lemma ResentIsCarried(l: Link, verdict: Entry -> bool, releases: seq<PacketId>, id: PacketId)
    requires Inv(l) && Possible(l, Copy(verdict, releases)) && l.fwd == []
    ensures Carried(Resent(l, verdict, releases), id)
  {
    ResendWritesAll(l, verdict, releases);
    TodoCarries(Resent(l, verdict, releases), CopyMade(l, verdict, releases).todo, id);
  }

  lemma TodoCarries(l: Link, todo: seq<Packet>, id: PacketId)
    requires l.fwd == [] + todo && l.releasing == {} && |l.s.queue| <= |todo|
    requires forall k :: 0 <= k < |l.s.queue| ==> todo[k].id == l.s.queue[k].id && !todo[k].Rel?
    requires id in l.s.outgoing ==> multiset(todo)[Rel(id)] == 1
    ensures Carried(l, id)
  {
    if id in Ids(l.s.queue) {
      var k :| 0 <= k < |l.s.queue| && l.s.queue[k].id == id;
      assert todo[k] in l.fwd;
    }
  }

  /** Nothing is in use or under way. */
  ghost predicate AllOver(l: Link) {
    && l.s.queue == [] && l.s.outgoing == {} && l.s.usedIds == {} && l.owner == map[]
    && l.releasing == {} && l.fwd == [] && l.bwd == [] && l.todo == [] && l.staged == {}
  }

  lemma NoneInUse(l: Link)
    requires Inv(l) && Quiet(l) && l.phase == Online && l.staged == {} && forall id :: id in l.s.usedIds ==> Carried(l, id)
    ensures AllOver(l)
  {
    QuietIsOver(l);
    assert l.s.usedIds == {} && l.owner.Keys == {};
    DistinctCount(l.s.queue);
  }

  /** What was issued, refused and queued in vain stays as it was. */
  ghost predicate SameTally(l: Link, l': Link) {
    l'.issued == l.issued && l'.denied == l.denied && l'.stale == l.stale && l'.refused == l.refused
  }

  /** Before the resend: the writes that are due, and what is under way. */
  lemma ClearsWindow(l: Link) returns (events: seq<Event>, m: Link)
    requires Inv(l) && l.phase == Window
    ensures Leads(SoundRun, l, events, m) && Inv(m) && m.phase == Window
    ensures m.staged == {} && m.fwd == [] && m.bwd == [] && m.releasing == {}
    ensures SameTally(l, m) && m.dropped == l.dropped && l.s.quota <= m.s.quota && |m.s.queue| <= |l.s.queue|
  {
    var writes, written := WriteAll(l);
    var moves;
    moves, m := Drain(written);
    events := Joined(l, writes, written, moves, m);
    QuietIsOver(m);
  }

  /** The resend, and what comes of it. */
  lemma FinishesResend(m: Link, verdict: Entry -> bool) returns (events: seq<Event>, l': Link)
    requires Inv(m) && m.phase == Window && m.staged == {} && m.fwd == [] && m.bwd == [] && m.releasing == {}
    ensures Leads(SoundRun, m, events, l') && Inv(l') && AllOver(l') && l'.phase == Online
    ensures SameTally(m, l') && l'.dropped == Dropping(m, QosState.Resend(m.s, verdict)).dropped
  {
    var releases := SomeList(m.s.outgoing);
    var copies := CopyAndSend(m, verdict, releases);
    var sent := Resent(m, verdict, releases);
    forall id ensures Carried(sent, id) {
      ResentIsCarried(m, verdict, releases, id);
    }
    var rest;
    rest, l' := Drain(sent);
    events := Joined(m, copies, sent, rest, l');
    NoneInUse(l');
  }

  /**
   From any state of a link on which the sender has connected and has still to resend, whatever the resend
   decides: a run that ends every exchange. `m` is the state before the resend, and what it decides against
   is all that is dropped.
   */
  lemma FinishesFromWindow(l: Link, verdict: Entry -> bool) returns (events: seq<Event>, m: Link, l': Link)
    requires Inv(l) && l.phase == Window
    ensures Leads(SoundRun, l, events, l') && Inv(l') && AllOver(l') && SameTally(l, l')
    ensures l.s.quota <= m.s.quota && |m.s.queue| <= |l.s.queue|
    ensures l'.dropped == l.dropped + set id | id in Ids(m.s.queue) - Ids(QosState.Resend(m.s, verdict).queue) && id in m.owner :: m.owner[id]
  {
    var clears, rest;
    clears, m := ClearsWindow(l);
    rest, l' := FinishesResend(m, verdict);
    events := Joined(l, clears, m, rest, l');
  }

  /**
   Whatever happened before, a connection that lasts, with a receive maximum that holds what is queued, on
   which the receiver refuses nothing, ends every exchange, and drops nothing. Then every message ever
   queued was forwarded, unless it was queued under an id that the receiver still held, or was refused or
   dropped earlier.
   */
  lemma FinishesAfterReconnect(l: Link, receiveMax: PacketId) returns (events: seq<Event>, l': Link)
    requires Inv(l) && l.phase == Offline && |l.s.queue| <= receiveMax
    ensures Leads(SoundRun, l, events, l') && AllOver(l') && l'.issued == l.issued
    ensures forall n :: 0 <= n < l.issued ==>
      n in l'.completed || n in l'.acked || n in l.denied || n in l.dropped
    ensures forall n :: 0 <= n < l.issued ==>
      n in l'.log || n in l'.arrived || n in l.stale || n in l.denied || n in l.refused || n in l.dropped
  {
    var first, next := Step(l, Connect(receiveMax));
    var rest, m;
    rest, m, l' := FinishesFromWindow(next, e => true);
    events := Joined(l, first, next, rest, l');
    AllAllowed(m.s.queue);
    assert QosState.Resend(m.s, e => true).queue == m.s.queue;
    assert l'.dropped == l.dropped;
    AllCameThrough(l');
  }

  lemma AllCameThrough(l: Link)
    requires Inv(l) && AllOver(l)
    ensures forall n :: 0 <= n < l.issued ==> n in l.completed || n in l.acked || n in l.denied || n in l.dropped
    ensures forall n :: 0 <= n < l.issued ==>
      n in l.log || n in l.arrived || n in l.stale || n in l.denied || n in l.refused || n in l.dropped
  {
  }

  lemma {:induction false} AllAllowed(queue: seq<Entry>)
    ensures Allowed(queue, e => true) == queue
  {
    if queue != [] {
      AllAllowed(queue[1..]);
    }
  }
}
