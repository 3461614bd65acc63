/**
 Topic aliases between several sending threads and one client, section 3.3.2.3.4 of MQTT 5.0. A thread
 that finds its topic among the aliases writes later, without the lock; a thread that introduces an
 alias keeps the lock over its write, until the alias is registered. Any write may be refused.
 */
module TopicAliases {
  import opened Bits
  import opened Options
  import opened PublishFormat

  // ---------- the client's aliases ----------

  /** What a thread is going to send: no alias, an alias the client knows, or a new one. */
  datatype Choice = Plain | Known(alias: nat) | New(alias: nat)

  function Choose(aliases: map<seq<byte>, nat>, cur_alias: nat, limit: nat, topic: seq<byte>): Choice {
    if limit == 0 then Plain
    else if topic in aliases then Known(aliases[topic])
    else if cur_alias < limit then New(cur_alias + 1)
    else Plain
  }

  class OutgoingTopicAliases {
    const maxOutgoingTopicAliasValue: nat
    var aliases: map<seq<byte>, nat>
    var cur_alias: nat

    constructor (maxOutgoingTopicAliasValue: nat)
      ensures this.maxOutgoingTopicAliasValue == maxOutgoingTopicAliasValue && aliases == map[] && cur_alias == 0
    {
      this.maxOutgoingTopicAliasValue, aliases, cur_alias := maxOutgoingTopicAliasValue, map[], 0;
    }

    /** The first part of Client::writeMqttPacketAndBlameThisClient. */
    method Look(topic: seq<byte>) returns (topic_alias: nat, topic_alias_next: nat, skip_topic: bool)
      ensures match Choose(aliases, cur_alias, maxOutgoingTopicAliasValue, topic)
              case Plain => topic_alias == 0 && topic_alias_next == 0 && !skip_topic
              case Known(alias) => topic_alias == alias && topic_alias_next == 0 && skip_topic
              case New(alias) => topic_alias == topic_alias_next == alias && !skip_topic
    {
      topic_alias, topic_alias_next, skip_topic := 0, 0, false;
      if maxOutgoingTopicAliasValue > 0 {
        if topic in aliases {
          topic_alias, skip_topic := aliases[topic], true;
        } else if cur_alias < maxOutgoingTopicAliasValue {
          topic_alias_next := cur_alias + 1;
          topic_alias := topic_alias_next;
        }
      }
    }

    /** The last part: a new alias counts once the packet that introduces it was not dropped. */
    method Keep(topic: seq<byte>, topic_alias_next: nat, success: bool)
      modifies this
      ensures aliases == if success && topic_alias_next > 0 then old(aliases)[topic := topic_alias_next] else old(aliases)
      ensures cur_alias == if success && topic_alias_next > 0 then topic_alias_next else old(cur_alias)
    {
      if success && topic_alias_next > 0 {
        aliases := aliases[topic := topic_alias_next];
        cur_alias := topic_alias_next;
      }
    }
  }

  // ---------- threads ----------

  /** A PUBLISH on its way: its alias, the topic in it, and the topic it is for. */
  datatype Packet = Packet(alias: nat, sent: seq<byte>, original: seq<byte>)

  datatype Thread = Idle | Choosing(topic: seq<byte>, choice: Choice) | Written(topic: seq<byte>, alias: nat, accepted: bool)

  datatype State = State(aliases: map<seq<byte>, nat>, cur_alias: nat, locked: bool, threads: map<nat, Thread>, wire: seq<Packet>)

  datatype Event = Start(thread: nat, topic: seq<byte>) | Write(thread: nat, accepted: bool) | Register(thread: nat)

  function At(s: State, t: nat): Thread {
    if t in s.threads then s.threads[t] else Idle
  }

  function PacketFor(topic: seq<byte>, choice: Choice): Packet {
    match choice
    case Plain => Packet(0, topic, topic)
    case Known(alias) => Packet(alias, [], topic)
    case New(alias) => Packet(alias, topic, topic)
  }

  predicate Possible(s: State, e: Event) {
    match e
    case Start(t, topic) => At(s, t).Idle? && topic != [] && !s.locked
    case Write(t, _) => At(s, t).Choosing?
    case Register(t) => At(s, t).Written?
  }

  function Apply(s: State, e: Event, limit: nat): State
    requires Possible(s, e)
  {
    match e
    case Start(t, topic) =>
      var choice := Choose(s.aliases, s.cur_alias, limit, topic);
      s.(threads := s.threads[t := Choosing(topic, choice)], locked := choice.New?)
    case Write(t, accepted) =>
      var Choosing(topic, choice) := s.threads[t];
      s.(wire := if accepted then s.wire + [PacketFor(topic, choice)] else s.wire,
         threads := s.threads[t := if choice.New? then Written(topic, choice.alias, accepted) else Idle])
    case Register(t) =>
      var Written(topic, alias, accepted) := s.threads[t];
      var s' := s.(locked := false, threads := s.threads[t := Idle]);
      if accepted then s'.(aliases := s.aliases[topic := alias], cur_alias := alias) else s'
  }

  function Run(events: seq<Event>, limit: nat): Option<State> {
    if events == [] then Some(State(map[], 0, false, map[], []))
    else
      var e := events[|events| - 1];
      match Run(events[..|events| - 1], limit)
      case None => None
      case Some(s) => if Possible(s, e) then Some(Apply(s, e, limit)) else None
  }

  // ---------- the receiver ----------

  /** What a receiver makes of the packets, in order: the aliases it knows and the topics; None is a protocol error. */
  function Receive(wire: seq<Packet>, max: nat): Option<(Aliases, seq<seq<byte>>)> {
    if wire == [] then Some((map[], []))
    else
      match Receive(wire[..|wire| - 1], max)
      case None => None
      case Some(r) => ReceiveOne(r, wire[|wire| - 1], max)
  }

  function ReceiveOne(r: (Aliases, seq<seq<byte>>), p: Packet, max: nat): Option<(Aliases, seq<seq<byte>>)> {
    if p.alias == 0 then (if p.sent == [] then None else Some((r.0, r.1 + [p.sent])))
    else
      match UseAlias(r.0, max, p.alias, p.sent)
      case None => None
      case Some(used) => Some((used.0, r.1 + [used.1]))
  }

  function Originals(wire: seq<Packet>): seq<seq<byte>> {
    seq(|wire|, i requires 0 <= i < |wire| => wire[i].original)
  }

  // ---------- the invariant ----------

  /** What a thread relies on, given what the receiver will have learnt. */
  predicate ThreadOk(thread: Thread, s: State, heard: Aliases, limit: nat) {
    match thread
    case Idle => true
    case Choosing(topic, choice) =>
      && topic != []
      && (choice.Known? ==> choice.alias > 0 && choice.alias in heard && heard[choice.alias] == topic)
      && (choice.New? ==> s.locked && choice.alias == s.cur_alias + 1 <= limit && choice.alias !in heard)
    case Written(topic, alias, accepted) =>
      && topic != [] && s.locked && alias == s.cur_alias + 1 <= limit
      && if accepted then alias in heard && heard[alias] == topic else alias !in heard
  }

  predicate Holds(thread: Thread) {
    thread.Written? || (thread.Choosing? && thread.choice.New?)
  }

  ghost predicate Inv(s: State, limit: nat, heard: Aliases) {
    && s.cur_alias <= limit
    && (forall topic :: topic in s.aliases ==> topic != [] && 0 < s.aliases[topic] <= s.cur_alias)
    && (forall topic :: topic in s.aliases ==> s.aliases[topic] in heard && heard[s.aliases[topic]] == topic)
    && (forall alias :: alias in heard ==> 0 < alias <= s.cur_alias + (if s.locked then 1 else 0))
    && (forall t :: t in s.threads ==> ThreadOk(s.threads[t], s, heard, limit))
    && (forall t, u :: t in s.threads && u in s.threads && Holds(s.threads[t]) && Holds(s.threads[u]) ==> t == u)
  }

  ghost predicate Agreed(s: State, limit: nat, max: nat) {
    var r := Receive(s.wire, max);
    r.Some? && r.value.1 == Originals(s.wire) && Inv(s, limit, r.value.0)
  }

  lemma ReceiveSnoc(wire: seq<Packet>, p: Packet, max: nat)
    ensures Receive(wire + [p], max) == match Receive(wire, max)
                                        case None => None
                                        case Some(r) => ReceiveOne(r, p, max)
    ensures Originals(wire + [p]) == Originals(wire) + [p.original]
  {
  }

  lemma StartKeeps(s: State, e: Event, limit: nat, heard: Aliases)
    requires Inv(s, limit, heard) && e.Start? && Possible(s, e)
    ensures Inv(Apply(s, e, limit), limit, heard)
  {
    var s' := Apply(s, e, limit);
    forall t | t in s'.threads ensures ThreadOk(s'.threads[t], s', heard, limit) {
      if t != e.thread {
        assert ThreadOk(s.threads[t], s, heard, limit);
      }
    }
    forall t | t in s.threads ensures !Holds(s.threads[t]) {
      assert ThreadOk(s.threads[t], s, heard, limit);
    }
  }

  lemma WriteKeeps(s: State, e: Event, limit: nat, max: nat)
    requires Agreed(s, limit, max) && limit <= max && e.Write? && Possible(s, e)
    ensures Agreed(Apply(s, e, limit), limit, max)
  {
    var s' := Apply(s, e, limit);
    var r := Receive(s.wire, max).value;
    var Choosing(topic, choice) := s.threads[e.thread];
    assert ThreadOk(s.threads[e.thread], s, r.0, limit);
    var heard := r.0;
    if e.accepted {
      ReceiveSnoc(s.wire, PacketFor(topic, choice), max);
      heard := Receive(s'.wire, max).value.0;
    }
    ThreadsAfterWrite(s, s', e, limit, r.0, heard);
  }

  lemma ThreadsAfterWrite(s: State, s': State, e: Event, limit: nat, heard: Aliases, heard': Aliases)
    requires Inv(s, limit, heard) && e.Write? && Possible(s, e) && s' == Apply(s, e, limit)
    requires var Choosing(topic, choice) := s.threads[e.thread];
      heard' == if e.accepted && choice.New? then heard[choice.alias := topic] else heard
    ensures Inv(s', limit, heard')
  {
    assert ThreadOk(s.threads[e.thread], s, heard, limit);
    forall t | t in s'.threads ensures ThreadOk(s'.threads[t], s', heard', limit) {
      if t != e.thread {
        assert ThreadOk(s.threads[t], s, heard, limit);
        assert Holds(s.threads[t]) ==> !Holds(s.threads[e.thread]);
      }
    }
  }

  lemma RegisterKeeps(s: State, e: Event, limit: nat, heard: Aliases)
    requires Inv(s, limit, heard) && e.Register? && Possible(s, e)
    ensures Inv(Apply(s, e, limit), limit, heard)
  {
    var s' := Apply(s, e, limit);
    assert ThreadOk(s.threads[e.thread], s, heard, limit);
    forall t | t in s'.threads ensures ThreadOk(s'.threads[t], s', heard, limit) {
      if t != e.thread {
        assert ThreadOk(s.threads[t], s, heard, limit);
        assert !Holds(s.threads[t]);
      }
    }
  }

  lemma StepAgrees(s: State, e: Event, limit: nat, max: nat)
    requires Agreed(s, limit, max) && limit <= max && Possible(s, e)
    ensures Agreed(Apply(s, e, limit), limit, max)
  {
    var heard := Receive(s.wire, max).value.0;
    match e
    case Start(_, _) => StartKeeps(s, e, limit, heard);
    case Write(_, _) => WriteKeeps(s, e, limit, max);
    case Register(_) => RegisterKeeps(s, e, limit, heard);
  }

  lemma {:induction false} RunAgrees(events: seq<Event>, limit: nat, max: nat)
    requires limit <= max && Run(events, limit).Some?
    ensures Agreed(Run(events, limit).value, limit, max)
  {
    if events != [] {
      var before := events[..|events| - 1];
      RunAgrees(before, limit, max);
      StepAgrees(Run(before, limit).value, events[|events| - 1], limit, max);
    }
  }

  /** The topic that a thread last set out to send. */
  function TopicOf(events: seq<Event>, t: nat): seq<byte> {
    if events == [] then []
    else
      var e := events[|events| - 1];
      if e.Start? && e.thread == t then e.topic else TopicOf(events[..|events| - 1], t)
  }

  /** The topics of the writes that were accepted, in order. */
  function AcceptedTopics(events: seq<Event>): seq<seq<byte>> {
    if events == [] then []
    else
      var before, e := events[..|events| - 1], events[|events| - 1];
      AcceptedTopics(before) + if e.Write? && e.accepted then [TopicOf(before, e.thread)] else []
  }

  lemma {:induction false} WireIsAccepted(events: seq<Event>, limit: nat)
    requires Run(events, limit).Some?
    ensures var s := Run(events, limit).value;
      && Originals(s.wire) == AcceptedTopics(events)
      && (forall t :: t in s.threads && s.threads[t].Choosing? ==> s.threads[t].topic == TopicOf(events, t))
  {
    if events != [] {
      var before, e := events[..|events| - 1], events[|events| - 1];
      WireIsAccepted(before, limit);
      var s := Run(before, limit).value;
      if e.Write? && e.accepted {
        ReceiveSnoc(s.wire, PacketFor(s.threads[e.thread].topic, s.threads[e.thread].choice), 0);
      }
    }
  }

  /**
   Whatever the threads do and whichever writes are refused: a receiver that accepts as many aliases
   never meets an unknown one, and reads the topics of the accepted writes, in order.
   */
  lemma ReceiverResolvesEveryTopic(events: seq<Event>, limit: nat, max: nat)
    requires limit <= max && Run(events, limit).Some?
    ensures var wire := Run(events, limit).value.wire;
      Receive(wire, max).Some? && Receive(wire, max).value.1 == Originals(wire) == AcceptedTopics(events)
  {
    RunAgrees(events, limit, max);
    WireIsAccepted(events, limit);
  }

  /** No two topics have the same alias, and none goes over the limit. */
  lemma AliasesAreDistinct(events: seq<Event>, limit: nat)
    requires Run(events, limit).Some?
    ensures var s := Run(events, limit).value;
      && (forall topic :: topic in s.aliases ==> 0 < s.aliases[topic] <= limit)
      && (forall x, y :: x in s.aliases && y in s.aliases && s.aliases[x] == s.aliases[y] ==> x == y)
  {
    RunAgrees(events, limit, limit);
  }

  /** The receiver has read part of what was sent: it agrees on that part too. */
  lemma {:induction false} PrefixAgrees(wire: seq<Packet>, n: nat, max: nat)
    requires n <= |wire| && Receive(wire, max).Some? && Receive(wire, max).value.1 == Originals(wire)
    ensures Receive(wire[..n], max).Some? && Receive(wire[..n], max).value.1 == Originals(wire[..n])
    decreases |wire|
  {
    if n < |wire| {
      var before := wire[..|wire| - 1];
      assert wire == before + [wire[|wire| - 1]];
      ReceiveSnoc(before, wire[|wire| - 1], max);
      ReceivesOneEach(before, max);
      var outs := Receive(before, max).value.1;
      assert outs == Receive(wire, max).value.1[..|before|];
      assert Originals(wire)[..|before|] == Originals(before);
      PrefixAgrees(before, n, max);
      assert before[..n] == wire[..n];
    } else {
      assert wire[..n] == wire;
    }
  }

  lemma {:induction false} ReceivesOneEach(wire: seq<Packet>, max: nat)
    requires Receive(wire, max).Some?
    ensures |Receive(wire, max).value.1| == |wire|
  {
    if wire != [] {
      ReceivesOneEach(wire[..|wire| - 1], max);
    }
  }

  /**
   Why the lock is kept over the write: were it not, two threads could introduce the same alias for
   different topics. After the first is registered, its topic is sent as the alias alone, and read as
   the topic of the second.
   */
  lemma WithoutLockTopicsMix(a: seq<byte>, b: seq<byte>)
    requires a != [] && b != [] && a != b
    ensures Choose(map[], 0, 1, a) == New(1) && Choose(map[], 0, 1, b) == New(1)
    ensures Choose(map[a := 1], 1, 1, a) == Known(1)
    ensures var wire := [PacketFor(a, New(1)), PacketFor(b, New(1)), PacketFor(a, Known(1))];
      Receive(wire, 1).Some? && Receive(wire, 1).value.1 == [a, b, b] && Originals(wire) == [a, b, a]
  {
    var p, q, r := PacketFor(a, New(1)), PacketFor(b, New(1)), PacketFor(a, Known(1));
    ReceiveSnoc([], p, 1);
    ReceiveSnoc([p], q, 1);
    ReceiveSnoc([p, q], r, 1);
    assert [] + [p] == [p] && [p] + [q] == [p, q] && [p, q] + [r] == [p, q, r];
  }
}
