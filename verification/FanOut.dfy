/** PublishCopyFactory: one incoming packet, a cache and a one-shot packet serve all subscribers. */
module FanOut {
  import MqttSplitter
  import opened Bits
  import opened Numbers
  import opened Options
  import opened ProtocolVersions
  import opened VariableByteInts
  import opened PublishFormat
  import opened PropertyBuilders
  import opened PublishRoundTrip
  import opened MqttPackets
  import opened FanOutBytes

  /** ProtocolVersion: none, 3.1, 3.1.1 and 5. */
  predicate Known(version: nat) {
    version in {0, 3, 4, 5}
  }

  /** getPublishLayoutCompareKey. */
  function LayoutKey(version: nat, qos: nat): nat {
    10 * (if version == 0 then 0 else if version in {3, 4} then 1 else if version == 5 then 2 else 3) + (if qos > 0 then 1 else 0)
  }

  /** Packets with the same key have their bytes laid out alike. */
  lemma SameKeySameLayout(version: nat, qos: nat, version': nat, qos': nat)
    requires Known(version) && Known(version') && LayoutKey(version, qos) == LayoutKey(version', qos')
    ensures (version >= MQTT_5 <==> version' >= MQTT_5) && (qos > 0 <==> qos' > 0)
  {
  }

  /** Who is sent the publish, and how; `maxQos` is what is left of the subscription's QoS after the ACL check. */
  datatype Subscriber = Subscriber(
    version: nat, maxQos: nat, packetId: nat, retain: bool, topicAlias: nat, skipTopic: bool, subscriptionIdentifier: nat,
    topicOverride: Option<seq<byte>>)

  /** The publish a subscriber is to get; the retain flag is set when it is written. */
  function Sent(org: Publish, s: Subscriber): Publish {
    Override(org, Min(org.qos, s.maxQos), s.topicAlias, s.skipTopic, s.subscriptionIdentifier, s.topicOverride)
  }

  /** A packet made for this subscriber alone. */
  function Alone(org: Publish, s: Subscriber): seq<byte>
    requires org.qos <= 2
  {
    var m := Sent(org, s);
    Framed(FirstByte(m.qos, s.retain), Body(m, s.version, s.packetId))
  }

  /** Its length can be written in front of it. */
  predicate BodyFits(org: Publish, s: Subscriber) {
    |Body(Sent(org, s), s.version, s.packetId)| <= MAX_VALUE
  }

  /** What a caller has to respect, as the assertions of the source say. */
  predicate Asks(org: Publish, s: Subscriber) {
    && Known(s.version) && s.maxQos <= 2 && s.packetId < 0x1_0000 && s.topicAlias < 0x1_0000
    && (s.maxQos > 0 ==> s.packetId > 0 && org.qos > 0)
    && (s.topicAlias > 0 ==> s.version >= MQTT_5) && (s.skipTopic ==> s.topicAlias > 0)
  }

  /** Nothing in the packet is specific to the receiver. */
  predicate Shareable(s: Subscriber) {
    s.topicOverride.None? && !(s.version >= MQTT_5 && s.topicAlias > 0) && s.subscriptionIdentifier == 0
  }

  // ---------- what the shared packets keep ----------

  /** An outgoing packet for `m`, up to its flags and its packet id. */
  ghost predicate Template(p: MqttPacket, m: Publish)
    reads p
  {
    && p.fixed_header_length == 0 && p.publishData.qos <= 2 && (p.publishData.qos > 0 <==> m.qos > 0)
    && p.bites == Body(m.(qos := p.publishData.qos), p.protocolVersion, p.packet_id)
    && p.first_byte == FirstByte(p.publishData.qos, p.first_byte % 2 == 1)
    && (m.qos > 0 ==> p.packet_id_pos == 2 + |SentTopic(m)|)
    && |p.bites| <= MAX_VALUE
  }

  /** The bytes are the original's, except the first and the packet id. */
  predicate SameElsewhere(b: seq<byte>, original: seq<byte>, header: nat, qos: nat)
    requires original != []
  {
    && |b| == |original| && (qos > 0 ==> IdPos(original, header) + 2 <= |original|)
    && forall i :: 0 < i < |b| && (qos == 0 || i < IdPos(original, header) || IdPos(original, header) + 2 <= i) ==> b[i] == original[i]
  }

  /** An incoming packet, whatever has been written into its first byte and its packet id. */
  ghost predicate Reusable(p: MqttPacket, original: seq<byte>, header: nat, qos: nat)
    requires original != []
    reads p
  {
    && p.fixed_header_length == header > 1 && p.publishData.qos <= 2 && (p.publishData.qos > 0 <==> qos > 0)
    && SameElsewhere(p.bites, original, header, qos)
    && p.first_byte == FirstByte(p.publishData.qos, p.first_byte % 2 == 1)
    && (qos > 0 ==> p.packet_id_pos == IdPos(original, header))
    && |p.bites| <= MAX_VALUE
  }

  lemma IdReplaced(m: Publish, version: nat, id: nat, id': nat)
    requires m.qos > 0
    ensures |Body(m, version, id)| == |Body(m, version, id')|
    ensures 2 + |SentTopic(m)| + 2 <= |Body(m, version, id)|
    ensures Copied(Body(m, version, id), 2 + |SentTopic(m)|, U16(id')) == Body(m, version, id')
  {
    BodyThreeParts(m, version, id);
    BodyThreeParts(m, version, id');
    CopiedMiddle(Str(SentTopic(m)), U16(id), U16(id'), SectionOf(version, AllWritten(PropertiesOf(m))) + m.payload);
  }

  lemma BodyThreeParts(m: Publish, version: nat, id: nat)
    requires m.qos > 0
    ensures Body(m, version, id) == Str(SentTopic(m)) + U16(id) + (SectionOf(version, AllWritten(PropertiesOf(m))) + m.payload)
  {
  }

  lemma CopiedMiddle(a: seq<byte>, x: seq<byte>, y: seq<byte>, tail: seq<byte>)
    requires |x| == |y|
    ensures Copied(a + x + tail, |a|, y) == a + y + tail
  {
  }

  lemma FlagsSet(first: byte, qos: nat, qos': nat, retain: bool)
    requires qos <= 2 && qos' <= 2 && first == FirstByte(qos, first % 2 == 1)
    ensures WithRetain(WithQos(first, qos'), retain) == FirstByte(qos', retain)
    ensures WithRetain(first, retain) == FirstByte(qos, retain)
    ensures WithQos(first, qos') == FirstByte(qos', first % 2 == 1)
    ensures FirstByte(qos, retain) % 2 == 1 <==> retain
  {
  }

  lemma BodyQos(m: Publish, qos: nat, qos': nat, version: nat, version': nat, id: nat)
    requires (qos > 0 <==> qos' > 0) && (version >= MQTT_5 <==> version' >= MQTT_5)
    ensures Body(m.(qos := qos), version, id) == Body(m.(qos := qos'), version', id)
    ensures qos == 0 ==> forall id' :: Body(m.(qos := qos), version, id) == Body(m.(qos := qos), version, id')
  {
    PropertiesQos(m, qos, qos', SLOTS);
  }

  lemma {:induction false} PropertiesQos(m: Publish, qos: nat, qos': nat, slots: seq<Slot>)
    ensures PropertiesFrom(m.(qos := qos), slots) == PropertiesFrom(m.(qos := qos'), slots)
  {
    if slots != [] {
      PropertiesQos(m, qos, qos', slots[1..]);
    }
  }

  lemma BuiltIsTemplate(p: MqttPacket, m: Publish, version: nat)
    requires m.qos <= 2 && Built(p, m, version) && |p.bites| <= MAX_VALUE
    ensures Template(p, m)
  {
    FlagsSet(p.first_byte, m.qos, m.qos, m.retain);
    assert m.(qos := m.qos) == m;
  }

  method BuildTemplate(version: nat, m: Publish, qos: nat, topicAlias: nat, skipTopic: bool, subscriptionIdentifier: nat,
                       topicOverride: Option<seq<byte>>) returns (r: Result<MqttPacket>)
    requires qos <= 2 && (m.expire.Some? ==> m.expire.value < UINT32_VALUES) && topicAlias < 0x1_0000
    ensures var m' := Override(m, qos, topicAlias, skipTopic, subscriptionIdentifier, topicOverride);
      && (r.Ok? ==> fresh(r.value) && Template(r.value, m') && r.value.protocolVersion == version && r.value.publishData.qos == qos)
      && (r.Err? ==> BuildStatus(m', version) == Thrown(r.error))
  {
    r := Build(version, m, qos, topicAlias, skipTopic, subscriptionIdentifier, topicOverride);
    if r.Ok? {
      ghost var m' := Override(m, qos, topicAlias, skipTopic, subscriptionIdentifier, topicOverride);
      BodyLength(m', version, 0);
      BuiltIsTemplate(r.value, m', version);
    }
  }

  lemma BodyLength(m: Publish, version: nat, id: nat)
    ensures BuildStatus(m, version) == Fine ==> |Body(m, version, 0)| <= MAX_VALUE
  {
  }

  // ---------- what a sender does to the packet it was given ----------

  /** The part of Client::writeMqttPacketAndBlameThisClient between getting the packet and writing it. */
  method Prepare(p: MqttPacket, qos: nat, packetId: nat, retain: bool)
    requires qos <= 2 && (p.publishData.qos > 0 <==> qos > 0) && packetId < 0x1_0000
    requires p.publishData.qos > 0 ==> 0 < p.packet_id_pos && p.packet_id_pos + 2 <= |p.bites|
    requires p.fixed_header_length > 0 ==> p.bites != []
    modifies p`packet_id, p`pos, p`bites, p`publishData, p`first_byte
    ensures p.publishData == old(p.publishData).(qos := qos)
    ensures p.first_byte == WithRetain(if qos > 0 then WithQos(old(p.first_byte), qos) else old(p.first_byte), retain)
    ensures p.packet_id == if qos > 0 then packetId else old(p.packet_id)
    ensures var b := if qos > 0 then Copied(old(p.bites), p.packet_id_pos, U16(packetId)) else old(p.bites);
      p.bites == if p.fixed_header_length > 0 then b[0 := p.first_byte] else b
  {
    if p.publishData.qos > 0 {
      p.SetPacketId(packetId);
      p.SetQos(qos);
    }
    p.SetRetain(retain);
  }

  lemma PreparedBody(m: Publish, version: nat, qos0: nat, qos: nat, id0: nat, id: nat)
    requires (qos0 > 0 <==> m.qos > 0) && (qos > 0 <==> m.qos > 0)
    ensures var b0 := Body(m.(qos := qos0), version, id0);
      && (qos > 0 ==> 2 + |SentTopic(m)| + 2 <= |b0|)
      && Body(m.(qos := qos), version, if qos > 0 then id else id0) == if qos > 0 then Copied(b0, 2 + |SentTopic(m)|, U16(id)) else b0
  {
    BodyQos(m, qos0, qos, version, version, id0);
    if qos > 0 {
      IdReplaced(m.(qos := qos), version, id0, id);
    }
  }

  /** Sending a template gives the packet for that publish, and keeps the template. */
  method SendTemplate(p: MqttPacket, ghost m: Publish, qos: nat, packetId: nat, retain: bool) returns (w: seq<byte>)
    requires Template(p, m) && qos <= 2 && (qos > 0 <==> m.qos > 0) && packetId < 0x1_0000
    modifies p`packet_id, p`pos, p`bites, p`publishData, p`first_byte
    ensures Template(p, m) && p.publishData.qos == qos
    ensures w == Framed(FirstByte(qos, retain), Body(m.(qos := qos), p.protocolVersion, if qos > 0 then packetId else old(p.packet_id)))
    ensures |Body(m.(qos := qos), p.protocolVersion, if qos > 0 then packetId else old(p.packet_id))| <= MAX_VALUE
  {
    PreparedBody(m, p.protocolVersion, p.publishData.qos, qos, p.packet_id, packetId);
    FlagsSet(p.first_byte, p.publishData.qos, qos, retain);
    Prepare(p, qos, packetId, retain);
    w := p.Serialized();
  }

  lemma PatchedElsewhere(b: seq<byte>, original: seq<byte>, header: nat, qos: nat, id: nat, first: byte)
    requires original != [] && header > 1 && SameElsewhere(b, original, header, qos)
    ensures var b' := (if qos > 0 then Copied(b, IdPos(original, header), U16(id)) else b)[0 := first];
      b' == Patched(original, header, first, qos, id) && SameElsewhere(b', original, header, qos)
  {
  }

  /** Sending the incoming packet gives its bytes with the id and the flags, and keeps it reusable. */
  method SendIncoming(p: MqttPacket, ghost original: seq<byte>, ghost header: nat, qos: nat, packetId: nat, retain: bool) returns (w: seq<byte>)
    requires original != [] && Reusable(p, original, header, qos) && qos <= 2 && packetId < 0x1_0000
    modifies p`packet_id, p`pos, p`bites, p`publishData, p`first_byte
    ensures Reusable(p, original, header, qos) && p.publishData == old(p.publishData).(qos := qos)
    ensures w == p.bites == Patched(original, header, FirstByte(qos, retain), qos, packetId)
  {
    FlagsSet(p.first_byte, p.publishData.qos, qos, retain);
    PatchedElsewhere(p.bites, original, header, qos, packetId, FirstByte(qos, retain));
    Prepare(p, qos, packetId, retain);
    w := p.Serialized();
  }

  // ---------- the factory ----------

  /** The bytes of the incoming packet a factory is made from, and whether they may be reused. */
  datatype Shape = Shape(original: seq<byte>, header: nat, version: nat, dontReuseBites: bool)

  predicate ShapeOk(shape: Shape, qos: nat) {
    && Known(shape.version) && shape.header > 1 && 0 < |shape.original| <= MAX_VALUE
    && (qos > 0 ==> IdPos(shape.original, shape.header) + 2 <= |shape.original|)
  }

  /** The incoming packet itself may be sent to the subscriber. */
  predicate Reuses(org: Publish, s: Subscriber, shape: Shape) {
    && Shareable(s) && !shape.dontReuseBites
    && LayoutKey(shape.version, org.qos) == LayoutKey(s.version, Min(org.qos, s.maxQos))
  }

  /** What is written: a packet as for this subscriber alone, or the bytes of the incoming one with this id and these flags. */
  predicate Serves(w: seq<byte>, org: Publish, s: Subscriber, shape: Option<Shape>)
    requires org.qos <= 2 && (shape.Some? ==> ShapeOk(shape.value, org.qos))
  {
    || (w == Alone(org, s) && BodyFits(org, s))
    || (shape.Some? && Reuses(org, s, shape.value)
        && var qos := Min(org.qos, s.maxQos);
        w == Patched(shape.value.original, shape.value.header, FirstByte(qos, s.retain), qos, s.packetId))
  }

  class PublishCopyFactory {
    const packet: MqttPacket?
    const publish: Publish
    const orgQos: nat
    var oneShotPacket: MqttPacket?
    var constructedPacketCache: map<nat, MqttPacket>

    ghost const org: Publish
    ghost const shape: Option<Shape>

    /** From a retained message, a will, or a queued message, which may have a subscription identifier. */
    constructor FromPublish(publish: Publish)
      requires publish.qos <= 2 && (publish.expire.Some? ==> publish.expire.value < UINT32_VALUES)
      requires publish.topicAlias == 0 && !publish.skipTopic
      ensures Valid() && packet == null && org == publish && shape == None
    {
      packet, this.publish, orgQos := null, publish, publish.qos;
      oneShotPacket, constructedPacketCache := null, map[];
      org, shape := publish, None;
    }

    /** From an incoming packet that has been parsed. */
    constructor FromPacket(packet: MqttPacket)
      requires packet.fixed_header_length > 1 && 0 < |packet.bites| <= MAX_VALUE && Known(packet.protocolVersion)
      requires packet.publishData.qos <= 2
      requires packet.publishData.expire.Some? ==> packet.publishData.expire.value < UINT32_VALUES
      requires packet.publishData.topicAlias == 0 && packet.publishData.subscriptionIdentifier == 0 && !packet.publishData.skipTopic
      requires packet.first_byte == FirstByte(packet.publishData.qos, packet.first_byte % 2 == 1)
      requires packet.publishData.qos > 0 ==> packet.packet_id_pos == IdPos(packet.bites, packet.fixed_header_length)
      requires packet.publishData.qos > 0 ==> IdPos(packet.bites, packet.fixed_header_length) + 2 <= packet.payloadStart
      requires packet.payloadStart + packet.payloadLen == |packet.bites| && 0 < packet.payloadStart
      requires packet.publishData.payload == []
      ensures Valid() && this.packet == packet && Packets() == {packet}
      ensures org == packet.publishData.(payload := packet.bites[packet.payloadStart..])
      ensures shape == Some(Shape(packet.bites, packet.fixed_header_length, packet.protocolVersion, packet.dontReuseBites))
    {
      this.packet, publish, orgQos := packet, EmptyPublish([], 0, false), packet.publishData.qos;
      oneShotPacket, constructedPacketCache := null, map[];
      org := packet.publishData.(payload := packet.bites[packet.payloadStart..]);
      shape := Some(Shape(packet.bites, packet.fixed_header_length, packet.protocolVersion, packet.dontReuseBites));
    }

    ghost function Packets(): set<MqttPacket>
      reads this
    {
      constructedPacketCache.Values + if packet == null then {} else {packet}
    }

    /** The publish data as parsed, but for the QoS, which belongs to the last subscriber. */
    ghost predicate PacketOk()
      requires packet != null && shape.Some? && ShapeOk(shape.value, org.qos)
      reads packet
    {
      var sh := shape.value;
      && Reusable(packet, sh.original, sh.header, org.qos)
      && packet.protocolVersion == sh.version && packet.dontReuseBites == sh.dontReuseBites
      && packet.publishData.(qos := org.qos, payload := org.payload) == org
      && (packet.publishData.payload == [] || packet.publishData.payload == org.payload)
      && packet.payloadStart + packet.payloadLen == |packet.bites| && 0 < packet.payloadStart
      && (org.qos > 0 ==> IdPos(sh.original, sh.header) + 2 <= packet.payloadStart)
      && sh.original[packet.payloadStart..] == org.payload
    }

    ghost predicate OrgOk()
    {
      && org.qos <= 2 && (org.expire.Some? ==> org.expire.value < UINT32_VALUES)
      && org.topicAlias == 0 && (shape.Some? ==> org.subscriptionIdentifier == 0) && !org.skipTopic
    }

    ghost predicate SourceOk()
      reads if packet == null then {} else {packet}
    {
      if packet == null then shape.None? && publish == org else shape.Some? && ShapeOk(shape.value, org.qos) && PacketOk()
    }

    ghost predicate CacheOk(p: MqttPacket, k: nat)
      reads p
    {
      && Template(p, org.(qos := p.publishData.qos)) && Known(p.protocolVersion)
      && LayoutKey(p.protocolVersion, p.publishData.qos) == k
    }

    ghost predicate CachesOk()
      reads this, constructedPacketCache.Values
    {
      && (shape.None? ==> constructedPacketCache == map[])
      && (forall k :: k in constructedPacketCache ==> CacheOk(constructedPacketCache[k], k))
    }

    ghost predicate Valid()
      reads this, Packets()
    {
      orgQos == org.qos && OrgOk() && SourceOk() && CachesOk()
    }

    lemma Apart()
      requires CachesOk() && packet != null && SourceOk()
      ensures packet !in constructedPacketCache.Values
    {
    }

    lemma SourcePayload()
      requires packet != null && SourceOk()
      ensures packet.bites[packet.payloadStart..] == org.payload
      ensures packet.publishData.payload == [] ==> packet.publishData.(payload := org.payload, qos := org.qos) == org
    {
    }

    /** getPublishData of the incoming packet: all of the original publish, but perhaps its QoS. */
    method PacketPublish() returns (m: Publish)
      requires SourceOk() && packet != null
      modifies packet`publishData
      ensures SourceOk() && m == org.(qos := m.qos)
    {
      SourcePayload();
      m := packet.GetPublishData();
    }

    /** A packet with data specific to the receiver is not cached. */
    method OneShot(m: Publish, s: Subscriber) returns (r: Result<MqttPacket>)
      requires orgQos == org.qos && OrgOk() && Asks(org, s) && m == org.(qos := m.qos)
      modifies this`oneShotPacket
      ensures r.Ok? ==> fresh(r.value) && Template(r.value, Sent(org, s)) && r.value.protocolVersion == s.version
      ensures r.Err? ==> BuildStatus(Sent(org, s), s.version) == Thrown(r.error)
    {
      r := BuildTemplate(s.version, m, Min(orgQos, s.maxQos), s.topicAlias, s.skipTopic, s.subscriptionIdentifier, s.topicOverride);
      if r.Ok? {
        oneShotPacket := r.value;
      }
    }

    /** The packets that are shared are kept by the layout of their bytes. */
    method Cached(s: Subscriber, key: nat) returns (r: Result<MqttPacket>)
      requires Valid() && packet != null && Asks(org, s) && key == LayoutKey(s.version, Min(org.qos, s.maxQos))
      modifies this`constructedPacketCache, packet`publishData
      ensures Valid() && fresh(constructedPacketCache.Values - old(constructedPacketCache.Values))
      ensures r.Ok? ==> r.value in constructedPacketCache.Values && CacheOk(r.value, key)
      ensures r.Err? ==> BuildStatus(org.(qos := Min(org.qos, s.maxQos)), s.version) == Thrown(r.error)
    {
      if key in constructedPacketCache {
        assert CacheOk(constructedPacketCache[key], key);
        return Ok(constructedPacketCache[key]);
      }
      r := Construct(s, key);
    }

    method Construct(s: Subscriber, key: nat) returns (r: Result<MqttPacket>)
      requires Valid() && packet != null && Asks(org, s) && key == LayoutKey(s.version, Min(org.qos, s.maxQos))
      requires key !in constructedPacketCache
      modifies this`constructedPacketCache, packet`publishData
      ensures Valid() && fresh(constructedPacketCache.Values - old(constructedPacketCache.Values))
      ensures r.Ok? ==> r.value in constructedPacketCache.Values && CacheOk(r.value, key)
      ensures r.Err? ==> BuildStatus(org.(qos := Min(org.qos, s.maxQos)), s.version) == Thrown(r.error)
    {
      Apart();
      r := BuildShared(s);
      if r.Ok? {
        Insert(key, r.value);
      }
    }

    /** A packet without what is not part of the key. */
    method BuildShared(s: Subscriber) returns (r: Result<MqttPacket>)
      requires orgQos == org.qos && OrgOk() && SourceOk() && packet != null && Asks(org, s)
      modifies packet`publishData
      ensures SourceOk()
      ensures r.Ok? ==> fresh(r.value) && CacheOk(r.value, LayoutKey(s.version, Min(org.qos, s.maxQos)))
      ensures r.Err? ==> BuildStatus(org.(qos := Min(org.qos, s.maxQos)), s.version) == Thrown(r.error)
    {
      var m := PacketPublish();
      assert Override(m, Min(org.qos, s.maxQos), 0, false, 0, None) == org.(qos := Min(org.qos, s.maxQos));
      r := BuildTemplate(s.version, m, Min(orgQos, s.maxQos), 0, false, 0, None);
    }

    method Insert(key: nat, p: MqttPacket)
      requires shape.Some? && CachesOk() && CacheOk(p, key) && key !in constructedPacketCache
      modifies this`constructedPacketCache
      ensures CachesOk() && p in constructedPacketCache.Values
      ensures constructedPacketCache.Values == old(constructedPacketCache.Values) + {p}
    {
      ghost var before := constructedPacketCache;
      constructedPacketCache := constructedPacketCache[key := p];
      assert constructedPacketCache[key] == p;
      assert forall k :: k in before ==> constructedPacketCache[k] == before[k];
    }

    method Specific(s: Subscriber) returns (r: Result<MqttPacket>)
      requires Valid() && Asks(org, s) && packet != null
      modifies this`oneShotPacket, packet`publishData
      ensures Valid()
      ensures r.Err? ==> BuildStatus(Sent(org, s), s.version) == Thrown(r.error)
      ensures r.Ok? ==> r.value != packet && Suits(r.value, s) && fresh(r.value)
    {
      Apart();
      var m := PacketPublish();
      r := OneShot(m, s);
    }

    method Shared(s: Subscriber) returns (r: Result<MqttPacket>)
      requires Valid() && Asks(org, s) && packet != null && Shareable(s)
      modifies this`constructedPacketCache, packet`publishData
      ensures Valid() && fresh(constructedPacketCache.Values - old(constructedPacketCache.Values))
      ensures r.Err? ==> BuildStatus(Sent(org, s), s.version) == Thrown(r.error)
      ensures r.Ok? && r.value == packet ==> packet != null && Reuses(org, s, shape.value)
      ensures r.Ok? && r.value != packet ==> Suits(r.value, s) && r.value in constructedPacketCache.Values
    {
      var key := LayoutKey(s.version, Min(orgQos, s.maxQos));
      if !packet.dontReuseBites && LayoutKey(packet.protocolVersion, orgQos) == key {
        return Ok(packet);
      }
      assert Sent(org, s) == org.(qos := Min(org.qos, s.maxQos));
      r := Cached(s, key);
      if r.Ok? {
        CachedSuits(r.value, s, key);
        Apart();
      }
    }

    /** getOptimumPacket. */
    method GetOptimumPacket(s: Subscriber) returns (r: Result<MqttPacket>)
      requires Valid() && Asks(org, s)
      modifies this`oneShotPacket, this`constructedPacketCache, (if packet == null then {} else {packet})`publishData
      ensures Valid() && fresh(Packets() - old(Packets()))
      ensures r.Err? ==> BuildStatus(Sent(org, s), s.version) == Thrown(r.error)
      ensures r.Ok? ==> Prepared(r.value, s) && (r.value in Packets() || fresh(r.value))
    {
      if packet == null {
        r := OneShot(publish, s);
      } else if s.topicOverride.Some? || (s.version >= MQTT_5 && s.topicAlias > 0) || s.subscriptionIdentifier > 0 {
        r := Specific(s);
      } else {
        r := Shared(s);
      }
    }

    /** A packet the subscriber can be sent once its packet id and flags are set. */
    ghost predicate Suits(p: MqttPacket, s: Subscriber)
      reads this, p
    {
      Template(p, Sent(org, s)) && (p.protocolVersion >= MQTT_5 <==> s.version >= MQTT_5)
    }

    /** The incoming packet only where it may be reused, and a shared one only without what is the subscriber's own. */
    ghost predicate Prepared(p: MqttPacket, s: Subscriber)
      requires OrgOk()
      reads this, p
    {
      if p == packet then shape.Some? && Reuses(org, s, shape.value)
      else Suits(p, s) && (p in constructedPacketCache.Values ==> Shareable(s))
    }

    lemma CachedSuits(p: MqttPacket, s: Subscriber, key: nat)
      requires OrgOk() && shape.Some? && Asks(org, s) && Shareable(s) && p in constructedPacketCache.Values && CacheOk(p, key)
      requires key == LayoutKey(s.version, Min(org.qos, s.maxQos))
      ensures Suits(p, s)
    {
      var qos := Min(org.qos, s.maxQos);
      SameKeySameLayout(p.protocolVersion, p.publishData.qos, s.version, qos);
      TemplateForQos(p, org, p.publishData.qos, qos);
      assert Sent(org, s) == org.(qos := qos);
    }

    /** A packet made for this subscriber. */
    method SendFresh(p: MqttPacket, s: Subscriber) returns (w: seq<byte>)
      requires Valid() && Asks(org, s) && p !in Packets() && Suits(p, s)
      modifies p`packet_id, p`pos, p`bites, p`publishData, p`first_byte
      ensures Valid() && w == Alone(org, s) && BodyFits(org, s)
    {
      w := SendAlone(p, org, s, Min(orgQos, s.maxQos));
    }

    /** A packet from the cache. */
    method SendCached(p: MqttPacket, s: Subscriber) returns (w: seq<byte>)
      requires Valid() && Asks(org, s) && p != packet && p in constructedPacketCache.Values && Suits(p, s)
      requires Sent(org, s) == org.(qos := Min(org.qos, s.maxQos))
      modifies p`packet_id, p`pos, p`bites, p`publishData, p`first_byte
      ensures Valid() && w == Alone(org, s) && BodyFits(org, s)
    {
      w := SendAlone(p, org, s, Min(orgQos, s.maxQos));
      forall k | k in constructedPacketCache ensures CacheOk(constructedPacketCache[k], k) {
        assert old(CacheOk(constructedPacketCache[k], k));
      }
    }

    /** The incoming packet itself, as it is now. */
    method SendReused(s: Subscriber) returns (w: seq<byte>)
      requires Valid() && Asks(org, s) && packet != null && Reuses(org, s, shape.value)
      modifies packet`packet_id, packet`pos, packet`bites, packet`publishData, packet`first_byte
      ensures Valid() && Serves(w, org, s, shape)
    {
      Apart();
      ghost var sh := shape.value;
      SameKeySameLayout(sh.version, org.qos, s.version, Min(org.qos, s.maxQos));
      w := SendIncoming(packet, sh.original, sh.header, Min(orgQos, s.maxQos), s.packetId, s.retain);
    }

    /** Setting the packet id and the flags, and writing. */
    method SendPrepared(p: MqttPacket, s: Subscriber) returns (w: seq<byte>)
      requires Valid() && Asks(org, s)
      requires Prepared(p, s)
      modifies p`packet_id, p`pos, p`bites, p`publishData, p`first_byte
      ensures Valid() && Serves(w, org, s, shape)
    {
      if p == packet {
        w := SendReused(s);
      } else if p in constructedPacketCache.Values {
        assert Sent(org, s) == org.(qos := Min(org.qos, s.maxQos));
        w := SendCached(p, s);
      } else {
        w := SendFresh(p, s);
      }
    }

    /** Client::writeMqttPacketAndBlameThisClient, from getting the packet to what is written. */
    method SendTo(s: Subscriber) returns (r: Result<seq<byte>>)
      requires Valid() && Asks(org, s)
      modifies this`oneShotPacket, this`constructedPacketCache, Packets()
      ensures Valid() && fresh(Packets() - old(Packets())) && Outcome(r, org, s, shape)
    {
      var p := GetOptimumPacket(s);
      if p.Err? {
        return Err(p.error);
      }
      var w := SendPrepared(p.value, s);
      r := Ok(w);
    }

    /** Any subscribers, one after the other, through the same packets. */
    method SendToAll(subscribers: seq<Subscriber>) returns (written: seq<Result<seq<byte>>>)
      requires Valid() && forall s :: s in subscribers ==> Asks(org, s)
      modifies this`oneShotPacket, this`constructedPacketCache, Packets()
      ensures Outcomes(written, org, subscribers, shape)
    {
      written := [];
      for i := 0 to |subscribers|
        invariant Valid() && fresh(Packets() - old(Packets()))
        invariant Outcomes(written, org, subscribers[..i], shape)
      {
        assert subscribers[i] in subscribers;
        var r := SendTo(subscribers[i]);
        OutcomesSnoc(written, r, org, subscribers, i, shape);
        written := written + [r];
      }
      assert subscribers[..|subscribers|] == subscribers;
    }
  }

  ghost predicate Outcomes(written: seq<Result<seq<byte>>>, org: Publish, subscribers: seq<Subscriber>, shape: Option<Shape>)
    requires org.qos <= 2 && (shape.Some? ==> ShapeOk(shape.value, org.qos))
  {
    |written| == |subscribers| && forall i :: 0 <= i < |written| ==> Outcome(written[i], org, subscribers[i], shape)
  }

  lemma OutcomesSnoc(written: seq<Result<seq<byte>>>, r: Result<seq<byte>>, org: Publish, subscribers: seq<Subscriber>, i: nat, shape: Option<Shape>)
    requires org.qos <= 2 && (shape.Some? ==> ShapeOk(shape.value, org.qos)) && i < |subscribers|
    requires Outcomes(written, org, subscribers[..i], shape) && Outcome(r, org, subscribers[i], shape)
    ensures Outcomes(written + [r], org, subscribers[..i + 1], shape)
  {
    forall j | 0 <= j < i + 1 ensures Outcome((written + [r])[j], org, subscribers[..i + 1][j], shape) {
      if j < i {
        assert Outcome(written[j], org, subscribers[..i][j], shape);
      }
    }
  }

  /** What is written is delivered; nothing is written only when a packet of its own could not be built either. */
  ghost predicate Outcome(r: Result<seq<byte>>, org: Publish, s: Subscriber, shape: Option<Shape>)
    requires org.qos <= 2 && (shape.Some? ==> ShapeOk(shape.value, org.qos))
  {
    match r
    case Ok(w) => Serves(w, org, s, shape)
    case Err(error) => BuildStatus(Sent(org, s), s.version) == Thrown(error)
  }

  lemma SendsAlone(org: Publish, s: Subscriber, version: nat, id: nat)
    requires Asks(org, s) && org.qos <= 2 && (version >= MQTT_5 <==> s.version >= MQTT_5)
    ensures var m := Sent(org, s);
      && Body(m.(qos := m.qos), version, if m.qos > 0 then s.packetId else id) == Body(m, s.version, s.packetId)
      && Framed(FirstByte(m.qos, s.retain), Body(m.(qos := m.qos), version, if m.qos > 0 then s.packetId else id)) == Alone(org, s)
  {
  }

  method SendAlone(p: MqttPacket, ghost org: Publish, s: Subscriber, qos: nat) returns (w: seq<byte>)
    requires Asks(org, s) && org.qos <= 2 && qos == Min(org.qos, s.maxQos)
    requires Template(p, Sent(org, s)) && (p.protocolVersion >= MQTT_5 <==> s.version >= MQTT_5)
    modifies p`packet_id, p`pos, p`bites, p`publishData, p`first_byte
    ensures w == Alone(org, s) && BodyFits(org, s) && Template(p, Sent(org, s)) && p.publishData.qos == qos
    ensures LayoutKey(p.protocolVersion, p.publishData.qos) == old(LayoutKey(p.protocolVersion, p.publishData.qos))
  {
    SendsAlone(org, s, p.protocolVersion, p.packet_id);
    w := SendTemplate(p, Sent(org, s), qos, s.packetId, s.retain);
  }

  /** Templates do not depend on which of the QoS levels with a packet id they were made for. */
  lemma TemplateForQos(p: MqttPacket, m: Publish, qos: nat, qos': nat)
    requires (qos > 0 <==> qos' > 0) && Template(p, m.(qos := qos))
    ensures Template(p, m.(qos := qos'))
  {
  }

  // ---------- what is to be read, field by field ----------

  /** The topic that a subscriber is to read. */
  function TopicFor(org: Publish, s: Subscriber): seq<byte> {
    match s.topicOverride
    case Some(topic) => topic
    case None => org.topic
  }

  /** A text that a reader takes: not too long, and valid UTF-8, for a topic without wildcards. */
  predicate TakesText(text: seq<byte>, isTopic: bool, reader: Reader) {
    |text| <= reader.maxStringLength && |text| <= 0xFFFF && reader.isValidUtf8(text, isTopic)
  }

  predicate TakesProperties(org: Publish, reader: Reader) {
    && (org.contentType.Some? ==> TakesText(org.contentType.value, false, reader))
    && (org.responseTopic.Some? ==> org.responseTopic.value != [] && TakesText(org.responseTopic.value, true, reader))
    && (org.correlationData.Some? ==> |org.correlationData.value| <= reader.maxStringLength && |org.correlationData.value| <= 0xFFFF)
    && |org.userProperties| <= 51
    && (forall u :: u in org.userProperties ==> TakesText(u.key, false, reader) && TakesText(u.value, false, reader))
    && (org.payloadUtf8 ==> reader.isValidUtf8(org.payload, false))
  }

  /**
   The reader is able to take the publish. An alias that comes without a topic has to stand for this topic
   already, and one that comes with it has to be within the reader's limit.
   */
  predicate CanRead(org: Publish, s: Subscriber, reader: Reader, aliases: Aliases) {
    var topic := TopicFor(org, s);
    && topic != [] && TakesText(topic, true, reader)
    && (s.topicAlias > 0 && s.skipTopic ==> s.topicAlias in aliases && aliases[s.topicAlias] == topic && reader.isValidUtf8([], true))
    && (s.topicAlias > 0 && !s.skipTopic ==> s.topicAlias <= reader.maxIncomingTopicAliasValue)
    && (s.version == 5 ==>
          && TakesProperties(org, reader) && s.subscriptionIdentifier <= MAX_VALUE
          && (s.subscriptionIdentifier > 0 ==> reader.testing || reader.localBridge))
  }

  /** What it reads: the message with its own topic, QoS, retain flag, packet id and subscription identifier. */
  predicate ReadsOwn(r: Read<Parsed>, org: Publish, s: Subscriber, reader: Reader, aliases: Aliases) {
    match r
    case Fail(_) => false
    case Got(parsed, _) =>
      var m := parsed.reading.publish;
      && m.topic == TopicFor(org, s) && m.payload == org.payload && m.retain == s.retain
      && m.qos <= org.qos && m.qos <= s.maxQos && (m.qos == org.qos || m.qos == s.maxQos)
      && parsed.packetId == (if m.qos > 0 then s.packetId else 0)
      && (if s.version == 5
          then && m.payloadUtf8 == org.payloadUtf8 && m.expire == org.expire && m.contentType == org.contentType
               && m.correlationData == org.correlationData && m.responseTopic == org.responseTopic
               && m.userProperties == org.userProperties
          else && !m.payloadUtf8 && m.expire == None && m.contentType == None && m.correlationData == None
               && m.responseTopic == None && m.userProperties == [])
      && parsed.reading.subscriptionIdentifier == (if reader.testing && s.version == 5 then s.subscriptionIdentifier else 0)
      && parsed.reading.aliases == if s.topicAlias > 0 && !s.skipTopic then aliases[s.topicAlias := TopicFor(org, s)] else aliases
  }

  lemma CanReadInLimits(org: Publish, s: Subscriber, reader: Reader, aliases: Aliases)
    requires org.qos <= 2 && Typed(org) && Asks(org, s) && CanRead(org, s, reader, aliases)
    ensures InLimits(ForVersion(Sent(org, s).(retain := s.retain), s.version), reader, aliases)
  {
  }

  lemma ReceivedIsOwn(r: Read<Parsed>, org: Publish, s: Subscriber, reader: Reader, aliases: Aliases)
    requires org.qos <= 2 && Typed(org) && Asks(org, s) && CanRead(org, s, reader, aliases)
    requires var m := ForVersion(Sent(org, s).(retain := s.retain), s.version);
      InLimits(m, reader, aliases) && Received(r, m, s.packetId, reader, aliases)
    ensures ReadsOwn(r, org, s, reader, aliases)
  {
  }

  /** What always fits in a packet: texts of the length a string can have, and a payload of up to 260,000,000 bytes. */
  predicate Small(org: Publish, s: Subscriber) {
    && |TopicFor(org, s)| <= 0xFFFF && |org.payload| <= 260_000_000 && s.subscriptionIdentifier <= MAX_VALUE
    && (org.contentType.Some? ==> |org.contentType.value| <= 0xFFFF)
    && (org.responseTopic.Some? ==> |org.responseTopic.value| <= 0xFFFF)
    && (org.correlationData.Some? ==> |org.correlationData.value| <= 0xFFFF)
    && |org.userProperties| <= 51 && (forall u :: u in org.userProperties ==> |u.key| <= 0xFFFF && |u.value| <= 0xFFFF)
  }

  /** Such properties can all be written, and take at most 131,077 bytes each. */
  lemma {:induction false} SmallWritten(ps: seq<Property>, count: nat)
    requires forall p :: p in ps ==> Representable(p)
    requires count + |Users(ps)| <= 51
    ensures AllStatus(ps, count) == Fine && |AllWritten(ps)| <= 131_077 * |ps|
  {
    if ps != [] {
      assert ps[0] in ps && forall p :: p in ps[1..] ==> p in ps;
      SmallWritten(ps[1..], if ps[0].User? then count + 1 else count);
      WrittenLength(ps[0]);
    }
  }

  lemma WrittenLength(p: Property)
    requires Representable(p)
    ensures |Written(p)| <= 131_077
  {
    if p.SubscriptionIdentifier? { RoundTrip(p.id, []); }
  }

  lemma SmallIsBuilt(org: Publish, s: Subscriber)
    requires org.qos <= 2 && Typed(org) && Asks(org, s) && Small(org, s)
    ensures BuildStatus(Sent(org, s), s.version) == Fine
  {
    var m := Sent(org, s);
    var written := AllWritten(PropertiesOf(m));
    SmallProperties(m, SLOTS);
    SmallWritten(PropertiesOf(m), 0);
    RoundTrip(|written|, []);
    assert |Body(m, s.version, 0)| <= 2 + |SentTopic(m)| + 2 + (4 + |written|) + |m.payload|;
  }

  lemma {:induction false} SmallProperties(m: Publish, slots: seq<Slot>)
    requires (m.expire.Some? ==> m.expire.value < UINT32_VALUES) && m.topicAlias < 0x1_0000 && m.subscriptionIdentifier <= MAX_VALUE
    requires m.contentType.Some? ==> |m.contentType.value| <= 0xFFFF
    requires m.responseTopic.Some? ==> |m.responseTopic.value| <= 0xFFFF
    requires m.correlationData.Some? ==> |m.correlationData.value| <= 0xFFFF
    requires forall u :: u in m.userProperties ==> |u.key| <= 0xFFFF && |u.value| <= 0xFFFF
    ensures var ps := PropertiesFrom(m, slots);
      && |ps| <= |slots| + |m.userProperties| && Users(ps) == m.userProperties
      && (forall p :: p in ps ==> Representable(p))
  {
    if slots == [] {
      UsersOfList(m.userProperties);
      forall p | p in UserList(m.userProperties) ensures Representable(p) {
        assert p.property in m.userProperties;
      }
    } else {
      SmallProperties(m, slots[1..]);
      var others := PropertiesFrom(m, slots[1..]);
      if Has(m, slots[0]) {
        assert PropertiesFrom(m, slots) == [Single(m, slots[0])] + others;
        assert ([Single(m, slots[0])] + others)[1..] == others;
      } else {
        assert PropertiesFrom(m, slots) == others;
      }
    }
  }

  // ---------- what the subscribers make of it ----------

  lemma {:induction false} PropertiesRetain(m: Publish, retain: bool, slots: seq<Slot>)
    ensures PropertiesFrom(m.(retain := retain), slots) == PropertiesFrom(m, slots)
  {
    if slots != [] {
      PropertiesRetain(m, retain, slots[1..]);
    }
  }

  lemma AloneReceived(org: Publish, s: Subscriber, reader: Reader, aliases: Aliases)
    requires org.qos <= 2 && Asks(org, s) && BodyFits(org, s)
    requires InLimits(ForVersion(Sent(org, s).(retain := s.retain), s.version), reader, aliases)
    ensures Received(ParsePacket(Alone(org, s), s.version, reader, aliases), ForVersion(Sent(org, s).(retain := s.retain), s.version),
                     s.packetId, reader, aliases)
  {
    var m := Sent(org, s).(retain := s.retain);
    PropertiesRetain(Sent(org, s), s.retain, SLOTS);
    assert Body(m, s.version, s.packetId) == Body(Sent(org, s), s.version, s.packetId);
    BodyForVersion(m, s.version, s.packetId);
    BodyReadsBack(ForVersion(m, s.version), s.version, s.packetId, reader, aliases);
    FrameParses(FirstByte(m.qos, m.retain), Body(m, s.version, s.packetId), s.version, reader, aliases);
  }

  lemma AloneReads(org: Publish, s: Subscriber, reader: Reader, aliases: Aliases)
    requires org.qos <= 2 && Typed(org) && Asks(org, s) && BodyFits(org, s) && CanRead(org, s, reader, aliases)
    ensures ReadsOwn(ParsePacket(Alone(org, s), s.version, reader, aliases), org, s, reader, aliases)
  {
    CanReadInLimits(org, s, reader, aliases);
    AloneReceived(org, s, reader, aliases);
    ReceivedIsOwn(ParsePacket(Alone(org, s), s.version, reader, aliases), org, s, reader, aliases);
  }

  lemma ReusedMessage(org: Publish, s: Subscriber, shape: Shape)
    requires Known(shape.version) && org.qos <= 2 && Asks(org, s) && Reuses(org, s, shape)
    requires org.topicAlias == 0 && org.subscriptionIdentifier == 0 && !org.skipTopic
    ensures var qos := Min(org.qos, s.maxQos);
      && qos <= 2 && (qos > 0 <==> org.qos > 0) && (shape.version >= MQTT_5 <==> s.version >= MQTT_5)
      && (qos > 0 ==> 0 < s.packetId < 0x1_0000)
      && Sent(org, s).(retain := s.retain) == org.(qos := qos, retain := s.retain)
  {
  }

  lemma ReusedReads(org: Publish, s: Subscriber, shape: Shape, reader: Reader, aliases: Aliases, parsed: Parsed,
                    reader': Reader, aliases': Aliases)
    requires Incoming(shape.original, shape.header, shape.version, reader, aliases, parsed) && org == parsed.reading.publish
    requires Known(shape.version) && shape.dontReuseBites == parsed.reading.dontReuseBites
    requires org.qos <= 2 && Asks(org, s) && Reuses(org, s, shape)
    requires InLimits(ForVersion(Sent(org, s).(retain := s.retain), s.version), reader', aliases')
    ensures var qos, m := Min(org.qos, s.maxQos), Sent(org, s).(retain := s.retain);
      && (qos > 0 ==> IdPos(shape.original, shape.header) + 2 <= |shape.original|) && ForVersion(m, s.version) == m
      && Received(ParsePacket(Patched(shape.original, shape.header, FirstByte(qos, s.retain), qos, s.packetId), s.version, reader', aliases'),
                  m, s.packetId, reader', aliases')
  {
    var qos := Min(org.qos, s.maxQos);
    ParsedInLimits(shape.original[0], shape.original[shape.header..], shape.version, reader, aliases);
    ReusedMessage(org, s, shape);
    ParsedQos(shape.original[0], shape.original[shape.header..], shape.version, reader, aliases);
    PatchedReads(shape.original, shape.header, shape.version, s.version, reader, aliases, parsed, qos, s.retain, s.packetId, reader', aliases');
  }

  lemma ParsedQos(first: byte, data: seq<byte>, version: nat, reader: Reader, aliases: Aliases)
    requires Parse(first, data, version, reader, aliases).Got?
    ensures Parse(first, data, version, reader, aliases).value.reading.publish.qos == first / 2 % 4
  {
  }

  /**
   Whichever packet was used, the subscriber reads its publish: the original topic or the one it was
   given, the payload, the properties its protocol has, its own QoS, retain flag and packet id. It has
   limits and aliases of its own, `reader'` and `aliases'`; the publisher's are `reader` and `aliases`.
   */
  lemma EachReadsItsOwn(w: seq<byte>, org: Publish, s: Subscriber, shape: Shape, reader: Reader, aliases: Aliases, parsed: Parsed,
                        reader': Reader, aliases': Aliases)
    requires Incoming(shape.original, shape.header, shape.version, reader, aliases, parsed) && org == parsed.reading.publish
    requires ShapeOk(shape, org.qos) && shape.dontReuseBites == parsed.reading.dontReuseBites
    requires org.qos <= 2 && Typed(org) && Asks(org, s) && Serves(w, org, s, Some(shape)) && CanRead(org, s, reader', aliases')
    ensures w != [] && ReadsOwn(ParsePacket(w, s.version, reader', aliases'), org, s, reader', aliases')
  {
    if w == Alone(org, s) && BodyFits(org, s) {
      AloneReads(org, s, reader', aliases');
    } else {
      CanReadInLimits(org, s, reader', aliases');
      ReusedReads(org, s, shape, reader, aliases, parsed, reader', aliases');
      ReceivedIsOwn(ParsePacket(w, s.version, reader', aliases'), org, s, reader', aliases');
    }
  }

  /** The factory is for this parsed publish, and its incoming packet may be sent on. */
  ghost predicate Shares(f: PublishCopyFactory, parsed: Parsed, reader: Reader, aliases: Aliases) {
    && f.org == parsed.reading.publish && f.shape.Some?
    && var sh := f.shape.value;
    && sh.dontReuseBites == parsed.reading.dontReuseBites
    && Incoming(sh.original, sh.header, sh.version, reader, aliases, parsed)
  }

  /**
   Anyone who can take it reads in `r` the publish for subscriber `s`. Only a publish that is too large
   is not written.
   */
  ghost predicate Delivered(r: Result<seq<byte>>, org: Publish, s: Subscriber) {
    match r
    case Ok(w) => w != [] && forall reader, aliases :: ReadBy(w, org, s, reader, aliases)
    case Err(error) => !Small(org, s)
  }

  ghost predicate ReadBy(w: seq<byte>, org: Publish, s: Subscriber, reader: Reader, aliases: Aliases)
    requires w != []
  {
    CanRead(org, s, reader, aliases) ==> ReadsOwn(ParsePacket(w, s.version, reader, aliases), org, s, reader, aliases)
  }

  lemma OutcomeDelivers(r: Result<seq<byte>>, org: Publish, s: Subscriber, shape: Shape, reader: Reader, aliases: Aliases, parsed: Parsed)
    requires Incoming(shape.original, shape.header, shape.version, reader, aliases, parsed) && org == parsed.reading.publish
    requires org.qos <= 2 && Typed(org) && ShapeOk(shape, org.qos) && shape.dontReuseBites == parsed.reading.dontReuseBites
    requires Asks(org, s) && Outcome(r, org, s, Some(shape))
    ensures Delivered(r, org, s)
  {
    if r.Ok? {
      forall reader', aliases' ensures r.value != [] && ReadBy(r.value, org, s, reader', aliases') {
        if CanRead(org, s, reader', aliases') {
          EachReadsItsOwn(r.value, org, s, shape, reader, aliases, parsed, reader', aliases');
        }
      }
    } else if Small(org, s) {
      SmallIsBuilt(org, s);
    }
  }

  /** From the arrival of a PUBLISH to what is written for each of its subscribers, whoever they are. */
  method Deliver(packet: MqttPacket, sender: Client, subscribers: seq<Subscriber>) returns (r: Result<seq<Result<seq<byte>>>>)
    requires packet.Unparsed() && packet.bites != [] && packet.first_byte == packet.bites[0] && packet.first_byte / 16 == 3
    requires 2 <= packet.fixed_header_length && |packet.bites| <= MAX_VALUE && Known(packet.protocolVersion)
    requires Decode(packet.bites[1..], 0).Value? && Decode(packet.bites[1..], 0).length == packet.fixed_header_length - 1
    requires var spec := Parse(packet.first_byte, packet.bites[packet.fixed_header_length..], packet.protocolVersion, sender.limits,
                               sender.incomingTopicAliases);
      spec.Got? ==> forall s :: s in subscribers ==> Asks(spec.value.reading.publish, s)
    modifies packet, sender`incomingTopicAliases
    ensures match old(Parse(packet.first_byte, packet.bites[packet.fixed_header_length..], packet.protocolVersion, sender.limits,
                            sender.incomingTopicAliases))
            case Fail(error) => r == Err(error)
            case Got(parsed, _) =>
              && r.Ok? && |r.value| == |subscribers| && parsed.reading.publish.qos <= 2
              && forall i :: 0 <= i < |subscribers| ==> Delivered(r.value[i], parsed.reading.publish, subscribers[i])
  {
    ghost var aliases := sender.incomingTopicAliases;
    ghost var spec := Parse(packet.first_byte, packet.bites[packet.fixed_header_length..], packet.protocolVersion, sender.limits, aliases);
    var f := HandlePublish(packet, sender);
    if f.Err? {
      return Err(f.error);
    }
    ghost var org, shape := f.value.org, f.value.shape.value;
    var written := f.value.SendToAll(subscribers);
    forall i | 0 <= i < |subscribers| ensures Delivered(written[i], org, subscribers[i]) {
      OutcomeDelivers(written[i], org, subscribers[i], shape, sender.limits, aliases, spec.value);
    }
    r := Ok(written);
  }

  /** MqttPacket::handlePublish, from parsing to the factory, when no plugin or topic prefix changes the publish. */
  method HandlePublish(packet: MqttPacket, sender: Client) returns (r: Result<PublishCopyFactory>)
    requires packet.Unparsed() && packet.bites != [] && packet.first_byte == packet.bites[0] && packet.first_byte / 16 == 3
    requires 2 <= packet.fixed_header_length && |packet.bites| <= MAX_VALUE && Known(packet.protocolVersion)
    requires Decode(packet.bites[1..], 0).Value? && Decode(packet.bites[1..], 0).length == packet.fixed_header_length - 1
    modifies packet, sender`incomingTopicAliases
    ensures match old(Parse(packet.first_byte, packet.bites[packet.fixed_header_length..], packet.protocolVersion, sender.limits,
                            sender.incomingTopicAliases))
            case Fail(error) => r == Err(error)
            case Got(parsed, _) =>
              && r.Ok? && fresh(r.value) && r.value.Valid() && r.value.Packets() == {packet}
              && Shares(r.value, parsed, sender.limits, old(sender.incomingTopicAliases))
  {
    ghost var aliases := sender.incomingTopicAliases;
    var status := packet.ParsePublishData(sender);
    if status.Thrown? {
      return Err(status.error);
    }
    r := ShareParsed(packet, sender.limits, aliases);
  }

  method ShareParsed(packet: MqttPacket, ghost reader: Reader, ghost aliases: Aliases) returns (r: Result<PublishCopyFactory>)
    requires 2 <= packet.fixed_header_length <= |packet.bites| <= MAX_VALUE && Known(packet.protocolVersion)
    requires Decode(packet.bites[1..], 0).Value? && Decode(packet.bites[1..], 0).length == packet.fixed_header_length - 1
    requires packet.bites[0] / 16 == 3 && packet.publishData.payload == []
    requires packet.bites[0] / 2 % 4 > 0 ==> packet.packet_id_pos == IdPos(packet.bites, packet.fixed_header_length)
    requires var spec := Parse(packet.bites[0], packet.bites[packet.fixed_header_length..], packet.protocolVersion, reader, aliases);
      spec.Got? && exists known :: packet.Holds(spec.value, known)
    modifies packet`bites, packet`first_byte
    ensures r.Ok? && fresh(r.value) && r.value.Valid() && r.value.Packets() == {packet}
    ensures var spec := old(Parse(packet.bites[0], packet.bites[packet.fixed_header_length..], packet.protocolVersion, reader, aliases));
      Shares(r.value, spec.value, reader, aliases)
  {
    ClearedIncoming(packet.bites, packet.fixed_header_length, packet.protocolVersion, reader, aliases);
    r := FromParsed(packet);
  }

  method FromParsed(packet: MqttPacket) returns (r: Result<PublishCopyFactory>)
    requires 2 <= packet.fixed_header_length <= |packet.bites| <= MAX_VALUE && Known(packet.protocolVersion)
    requires Typed(packet.publishData) && packet.publishData.payload == [] && packet.publishData.qos <= 2
    requires var first := WithoutDuplicate(packet.bites[0]); first == FirstByte(packet.publishData.qos, first % 2 == 1)
    requires packet.publishData.qos > 0 ==> packet.packet_id_pos == IdPos(packet.bites, packet.fixed_header_length)
    requires packet.publishData.qos > 0 ==> IdPos(packet.bites, packet.fixed_header_length) + 2 <= packet.payloadStart
    requires packet.payloadStart + packet.payloadLen == |packet.bites| && 0 < packet.payloadStart
    modifies packet`bites, packet`first_byte
    ensures r.Ok? && fresh(r.value) && r.value.Valid() && r.value.Packets() == {packet}
    ensures r.value.org == packet.publishData.(payload := old(packet.bites)[packet.payloadStart..])
    ensures var bites := old(packet.bites)[0 := WithoutDuplicate(old(packet.bites)[0])];
      r.value.shape == Some(Shape(bites, packet.fixed_header_length, packet.protocolVersion, packet.dontReuseBites))
  {
    ghost var bites := packet.bites;
    packet.ClearDuplicate();
    assert packet.bites[packet.payloadStart..] == bites[packet.payloadStart..];
    var factory := new PublishCopyFactory.FromPacket(packet);
    r := Ok(factory);
  }
}
