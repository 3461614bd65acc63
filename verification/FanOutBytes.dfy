/** Why the bytes of an incoming PUBLISH can be sent on with another packet id and other flags. */
module FanOutBytes {
  import MqttSplitter
  import opened Bits
  import opened Options
  import opened ProtocolVersions
  import opened VariableByteInts
  import opened PublishFormat
  import opened PropertyBuilders
  import opened PublishRoundTrip
  import opened MqttPackets

  // ---------- what was parsed is within the limits it was parsed with ----------

  /** A reading without an alias or a subscription identifier, within the reader's limits. */
  predicate Plain(f: Reading, topic: seq<byte>, aliases: Aliases, reader: Reader) {
    && f.publish.topic == topic && f.aliases == aliases && f.subscriptionIdentifier == 0
    && f.publish.topicAlias == 0 && f.publish.subscriptionIdentifier == 0 && !f.publish.skipTopic
    && PropertiesOk(f.publish, reader)
  }

  lemma PropertyStaysPlain(s: seq<byte>, f: Reading, topic: seq<byte>, aliases: Aliases, reader: Reader)
    requires ReadProperty(s, f, reader).Got?
    ensures var f' := ReadProperty(s, f, reader).value;
      && (f.dontReuseBites ==> f'.dontReuseBites)
      && (!f'.dontReuseBites && Plain(f, topic, aliases, reader) ==> Plain(f', topic, aliases, reader))
  {
  }

  lemma {:induction false} PropertiesStayPlain(s: seq<byte>, after: int, f: Reading, topic: seq<byte>, aliases: Aliases, reader: Reader)
    requires ReadProperties(s, after, f, reader).Got?
    ensures var f' := ReadProperties(s, after, f, reader).value;
      && (f.dontReuseBites ==> f'.dontReuseBites)
      && (!f'.dontReuseBites && Plain(f, topic, aliases, reader) ==> Plain(f', topic, aliases, reader))
    decreases |s|
  {
    if |s| > after {
      PropertiesStep(s, after, f, reader);
      PropertyStaysPlain(s, f, topic, aliases, reader);
      var r := ReadProperty(s, f, reader);
      PropertiesStayPlain(r.rest, after, r.value, topic, aliases, reader);
    }
  }

  lemma SectionStaysPlain(s: seq<byte>, topic: seq<byte>, aliases: Aliases, version: nat, reader: Reader)
    requires ReadPropertySection(s, Start(topic, aliases), version, reader).Got?
    requires !ReadPropertySection(s, Start(topic, aliases), version, reader).value.dontReuseBites
    ensures var f := ReadPropertySection(s, Start(topic, aliases), version, reader).value;
      Plain(f, topic, aliases, reader) && (version < MQTT_5 ==> f == Start(topic, aliases))
  {
    assert Plain(Start(topic, aliases), topic, aliases, reader);
    if version >= MQTT_5 {
      var proplen := ReadVarInt(s);
      PropertiesStayPlain(proplen.rest, |proplen.rest| - proplen.value, Start(topic, aliases), topic, aliases, reader);
    }
  }

  lemma FrontInLimits(first: byte, data: seq<byte>, reader: Reader)
    requires ReadFront(first, data, reader).Got?
    ensures var front, qos := ReadFront(first, data, reader), first / 2 % 4;
      && StringOk(front.value.0, Topic, reader) && qos <= 2
      && (if qos > 0 then 0 < front.value.1 < 0x1_0000 else front.value.1 == 0)
  {
  }

  lemma FinishInLimits(first: byte, packetId: nat, f: Reading, payload: seq<byte>, topic: seq<byte>, reader: Reader, aliases: Aliases)
    requires Finish(first, packetId, f, payload, reader).Got? && first / 2 % 4 <= 2
    requires Plain(f, topic, aliases, reader) && StringOk(topic, Topic, reader)
    ensures var parsed := Finish(first, packetId, f, payload, reader).value;
      && Plain(parsed.reading, topic, aliases, reader) && InLimits(parsed.reading.publish, reader, aliases)
  {
  }

  /** A packet whose bytes may be reused holds a message within its reader's limits. */
  lemma ParsedInLimits(first: byte, data: seq<byte>, version: nat, reader: Reader, aliases: Aliases)
    requires Parse(first, data, version, reader, aliases).Got?
    requires !Parse(first, data, version, reader, aliases).value.reading.dontReuseBites
    ensures var parsed := Parse(first, data, version, reader, aliases).value;
      && Plain(parsed.reading, parsed.reading.publish.topic, aliases, reader)
      && InLimits(parsed.reading.publish, reader, aliases)
      && ForVersion(parsed.reading.publish, version) == parsed.reading.publish
      && (if parsed.reading.publish.qos > 0 then 0 < parsed.packetId < 0x1_0000 else parsed.packetId == 0)
  {
    var front := ReadFront(first, data, reader);
    FrontInLimits(first, data, reader);
    var f := ReadPropertySection(front.rest, Start(front.value.0, aliases), version, reader);
    SectionStaysPlain(front.rest, front.value.0, aliases, version, reader);
    FinishInLimits(first, front.value.1, f.value, f.rest, front.value.0, reader, aliases);
  }

  // ---------- another reader ----------

  /** The same reading by someone with other aliases. */
  function For(f: Reading, aliases: Aliases): Reading {
    f.(aliases := aliases)
  }

  /** What has been read stays as it is in what is read in the end. */
  predicate Extends(f: Reading, end: Reading) {
    && (RESPONSE_TOPIC in f.pcounts ==> end.publish.responseTopic == f.publish.responseTopic)
    && (CONTENT_TYPE in f.pcounts ==> end.publish.contentType == f.publish.contentType)
    && (CORRELATION_DATA in f.pcounts ==> end.publish.correlationData == f.publish.correlationData)
    && f.publish.userProperties <= end.publish.userProperties
    && (f.dontReuseBites ==> end.dontReuseBites)
    && f.pcounts <= end.pcounts
  }

  lemma PropertyExtends(s: seq<byte>, f: Reading, reader: Reader)
    requires ReadProperty(s, f, reader).Got?
    ensures Extends(f, ReadProperty(s, f, reader).value)
  {
  }

  lemma {:induction false} PropertiesExtend(s: seq<byte>, after: int, f: Reading, reader: Reader)
    requires ReadProperties(s, after, f, reader).Got?
    ensures Extends(f, ReadProperties(s, after, f, reader).value)
    decreases |s|
  {
    if |s| > after {
      PropertiesStep(s, after, f, reader);
      PropertyExtends(s, f, reader);
      var r := ReadProperty(s, f, reader);
      PropertiesExtend(r.rest, after, r.value, reader);
    }
  }

  /** A string is read alike by anyone within whose limits it is. */
  lemma StrForOther(s: seq<byte>, check: Check, reader: Reader, reader': Reader)
    requires ReadStr(s, check, reader).Got? && StringOk(ReadStr(s, check, reader).value, check, reader')
    ensures ReadStr(s, check, reader') == ReadStr(s, check, reader)
  {
  }

  lemma UserForOther(s: seq<byte>, f: Reading, reader: Reader, reader': Reader, aliases: Aliases)
    requires ReadUserProperty(s, f, reader).Got?
    requires UsersOk(ReadUserProperty(s, f, reader).value.publish.userProperties, reader')
    ensures ReadUserProperty(s, For(f, aliases), reader')
         == Got(For(ReadUserProperty(s, f, reader).value, aliases), ReadUserProperty(s, f, reader).rest)
  {
    var key := ReadStr(s, Utf8, reader);
    var val := ReadStr(key.rest, Utf8, reader);
    var users := ReadUserProperty(s, f, reader).value.publish.userProperties;
    assert users[|users| - 1] == UserProperty(key.value, val.value) && users[|users| - 1] in users;
    StrForOther(s, Utf8, reader, reader');
    StrForOther(key.rest, Utf8, reader, reader');
  }

  lemma SingleForOther(kind: byte, s: seq<byte>, f: Reading, reader: Reader, reader': Reader, aliases: Aliases)
    requires ReadSingle(kind, s, f, reader).Got? && !ReadSingle(kind, s, f, reader).value.dontReuseBites
    requires var m := ReadSingle(kind, s, f, reader).value.publish;
      && (kind == RESPONSE_TOPIC ==> OptionOk(m.responseTopic, Topic, reader'))
      && (kind == CONTENT_TYPE ==> OptionOk(m.contentType, Utf8, reader'))
      && (kind == CORRELATION_DATA ==> OptionOk(m.correlationData, Raw, reader'))
    ensures ReadSingle(kind, s, For(f, aliases), reader')
         == Got(For(ReadSingle(kind, s, f, reader).value, aliases), ReadSingle(kind, s, f, reader).rest)
  {
    if kind == RESPONSE_TOPIC {
      StrForOther(s, Topic, reader, reader');
    } else if kind == CORRELATION_DATA {
      StrForOther(s, Raw, reader, reader');
    } else if kind == CONTENT_TYPE {
      StrForOther(s, Utf8, reader, reader');
    }
  }

  lemma PropertyForOther(s: seq<byte>, f: Reading, end: Reading, reader: Reader, reader': Reader, aliases: Aliases)
    requires ReadProperty(s, f, reader).Got? && Extends(ReadProperty(s, f, reader).value, end)
    requires !end.dontReuseBites && PropertiesOk(end.publish, reader')
    ensures ReadProperty(s, For(f, aliases), reader')
         == Got(For(ReadProperty(s, f, reader).value, aliases), ReadProperty(s, f, reader).rest)
  {
    var r := ReadProperty(s, f, reader);
    if s[0] == USER_PROPERTY {
      assert forall u :: u in r.value.publish.userProperties ==> u in end.publish.userProperties;
      UserForOther(s[1..], f, reader, reader', aliases);
    } else {
      var g := f.(pcounts := f.pcounts + {s[0]});
      assert r == ReadSingle(s[0], s[1..], g, reader) && s[0] in r.value.pcounts;
      SingleForOther(s[0], s[1..], g, reader, reader', aliases);
      assert For(g, aliases) == For(f, aliases).(pcounts := f.pcounts + {s[0]});
    }
  }

  lemma {:induction false} PropertiesForOther(s: seq<byte>, after: int, f: Reading, end: Reading, reader: Reader, reader': Reader, aliases: Aliases)
    requires ReadProperties(s, after, f, reader).Got? && ReadProperties(s, after, f, reader).value == end
    requires !end.dontReuseBites && PropertiesOk(end.publish, reader')
    ensures ReadProperties(s, after, For(f, aliases), reader')
         == Got(For(end, aliases), ReadProperties(s, after, f, reader).rest)
    decreases |s|
  {
    if |s| > after {
      PropertiesStep(s, after, f, reader);
      var r := ReadProperty(s, f, reader);
      PropertiesExtend(r.rest, after, r.value, reader);
      PropertyForOther(s, f, end, reader, reader', aliases);
      PropertiesStep(s, after, For(f, aliases), reader');
      PropertiesForOther(r.rest, after, r.value, end, reader, reader', aliases);
    }
  }

  lemma SectionForOther(s: seq<byte>, f: Reading, version: nat, reader: Reader, reader': Reader, aliases: Aliases)
    requires var r := ReadPropertySection(s, f, version, reader);
      r.Got? && !r.value.dontReuseBites && PropertiesOk(r.value.publish, reader')
    ensures var r := ReadPropertySection(s, f, version, reader);
      ReadPropertySection(s, For(f, aliases), version, reader') == Got(For(r.value, aliases), r.rest)
  {
    if version >= MQTT_5 {
      var proplen := ReadVarInt(s);
      var r := ReadPropertySection(s, f, version, reader);
      PropertiesForOther(proplen.rest, |proplen.rest| - proplen.value, f, r.value, reader, reader', aliases);
    }
  }

  /**
   Whoever the message fits parses the packet alike, whatever its limits and its aliases: a packet
   whose bytes may be reused says nothing that only its first reader understands.
   */
  lemma ParseForOther(first: byte, data: seq<byte>, version: nat, reader: Reader, aliases: Aliases, reader': Reader, aliases': Aliases)
    requires var r := Parse(first, data, version, reader, aliases);
      r.Got? && !r.value.reading.dontReuseBites && InLimits(r.value.reading.publish, reader', aliases')
    ensures var r := Parse(first, data, version, reader, aliases);
      Parse(first, data, version, reader', aliases') == Got(r.value.(reading := For(r.value.reading, aliases')), [])
  {
    ParsedInLimits(first, data, version, reader, aliases);
    var front := ReadFront(first, data, reader);
    var topic := front.value.0;
    FrontInLimits(first, data, reader);
    var section := ReadPropertySection(front.rest, Start(topic, aliases), version, reader);
    SectionStaysPlain(front.rest, topic, aliases, version, reader);
    StrForOther(data, Topic, reader, reader');
    assert ReadFront(first, data, reader') == front;
    SectionForOther(front.rest, Start(topic, aliases), version, reader, reader', aliases');
    assert For(Start(topic, aliases), aliases') == Start(topic, aliases');
  }

  // ---------- other flags and another packet id ----------

  /** The data of a packet with another packet id. */
  function WithId(data: seq<byte>, qos: nat, id: nat): seq<byte>
    requires qos > 0 ==> IdPos(data, 0) + 2 <= |data|
  {
    if qos == 0 then data else Copied(data, IdPos(data, 0), U16(id))
  }

  lemma StrKept(data: seq<byte>, data': seq<byte>, check: Check, reader: Reader)
    requires |data'| == |data| >= 2 && IdPos(data, 0) <= |data|
    requires data'[..IdPos(data, 0)] == data[..IdPos(data, 0)]
    requires ReadStr(data, check, reader).Got?
    ensures ReadStr(data', check, reader) == Got(ReadStr(data, check, reader).value, data'[IdPos(data, 0)..])
    ensures ReadStr(data, check, reader).rest == data[IdPos(data, 0)..]
  {
    var n := Word(data[0], data[1]);
    var k := IdPos(data, 0);
    assert data[0] == data[..k][0] && data[1] == data[..k][1];
    assert data[2..][..n] == data[..k][2..];
    assert data'[2..][..n] == data'[..k][2..];
    assert data[2..][n..] == data[k..] && data'[2..][n..] == data'[k..];
  }

  lemma FrontPatched(first: byte, first': byte, data: seq<byte>, id: nat, reader: Reader)
    requires ReadFront(first, data, reader).Got?
    requires first' / 8 % 2 == 0 && first' / 2 % 4 <= 2 && (first' / 2 % 4 > 0 <==> first / 2 % 4 > 0)
    requires first / 2 % 4 > 0 ==> 0 < id < 0x1_0000
    ensures var qos, front := first / 2 % 4, ReadFront(first, data, reader);
      && (qos > 0 ==> |data| >= 2 && IdPos(data, 0) + 2 <= |data|)
      && ReadFront(first', WithId(data, qos, id), reader) == Got((front.value.0, if qos > 0 then id else 0), front.rest)
  {
    var qos, k := first / 2 % 4, IdPos(data, 0);
    var topic := ReadStr(data, Topic, reader);
    if qos > 0 {
      assert |data| >= 2 && |topic.rest| == |data| - k;
      var data' := WithId(data, qos, id);
      assert data'[..k] == data[..k];
      StrKept(data, data', Topic, reader);
      assert data'[k..] == U16(id) + data[k + 2..];
      U16ReadsBack(id, data[k + 2..]);
      assert data[k..][2..] == data[k + 2..];
    }
  }

  lemma BackPatched(first: byte, first': byte, id: nat, id': nat, s: seq<byte>, f: Reading, version: nat, version': nat, reader: Reader)
    requires version >= MQTT_5 <==> version' >= MQTT_5
    requires ReadBack(first, id, s, f, version, reader).Got?
    ensures var parsed := ReadBack(first, id, s, f, version, reader).value;
      var publish := parsed.reading.publish.(qos := first' / 2 % 4, retain := first' % 2 == 1);
      ReadBack(first', id', s, f, version', reader) == Got(Parsed(parsed.reading.(publish := publish), id'), [])
  {
    assert ReadPropertySection(s, f, version, reader) == ReadPropertySection(s, f, version', reader);
  }

  /** With another packet id and other flags, the same message is read, with that id and those flags. */
  lemma ParsePatched(first: byte, first': byte, data: seq<byte>, id: nat, version: nat, version': nat, reader: Reader, aliases: Aliases)
    requires Parse(first, data, version, reader, aliases).Got? && (version >= MQTT_5 <==> version' >= MQTT_5)
    requires first' / 8 % 2 == 0 && first' / 2 % 4 <= 2 && (first' / 2 % 4 > 0 <==> first / 2 % 4 > 0)
    requires first / 2 % 4 > 0 ==> 0 < id < 0x1_0000
    ensures first / 2 % 4 > 0 ==> IdPos(data, 0) + 2 <= |data|
    ensures var parsed := Parse(first, data, version, reader, aliases).value;
      var publish := parsed.reading.publish.(qos := first' / 2 % 4, retain := first' % 2 == 1);
      Parse(first', WithId(data, first / 2 % 4, id), version', reader, aliases)
        == Got(Parsed(parsed.reading.(publish := publish), if first / 2 % 4 > 0 then id else 0), [])
  {
    FrontPatched(first, first', data, id, reader);
    var front := ReadFront(first, data, reader);
    BackPatched(first, first', front.value.1, if first / 2 % 4 > 0 then id else 0, front.rest, Start(front.value.0, aliases),
                version, version', reader);
  }

  // ---------- whole packets ----------

  /** A packet, its fixed header included, with another first byte and another packet id. */
  function Patched(packet: seq<byte>, header: nat, first: byte, qos: nat, id: nat): (r: seq<byte>)
    requires packet != [] && (qos > 0 ==> IdPos(packet, header) + 2 <= |packet|)
    ensures |r| == |packet|
  {
    var b := packet[0 := first];
    if qos == 0 then b else Copied(b, IdPos(packet, header), U16(id))
  }

  /** The packet has a fixed header of `header` bytes and holds what the parser found in it. */
  predicate Incoming(packet: seq<byte>, header: nat, version: nat, reader: Reader, aliases: Aliases, parsed: Parsed) {
    && 2 <= header <= |packet| && Decode(packet[1..], 0).Value? && Decode(packet[1..], 0).length == header - 1
    && packet[0] / 16 == MqttSplitter.PUBLISH
    && Parse(packet[0], packet[header..], version, reader, aliases) == Got(parsed, [])
  }

  lemma {:induction false} DecodePrefix(b: seq<byte>, k: nat)
    requires k <= 4 && Decode(b, k).Value?
    ensures var length := Decode(b, k).length; k < length <= |b| && Decode(b[..length], k) == Decode(b, k)
    decreases 4 - k
  {
    if b[k] >= 128 {
      DecodePrefix(b, k + 1);
    }
  }

  lemma HeaderKept(packet: seq<byte>, packet': seq<byte>, header: nat)
    requires 2 <= header <= |packet| && Decode(packet[1..], 0).Value? && Decode(packet[1..], 0).length == header - 1
    requires header <= |packet'| && packet'[1..header] == packet[1..header]
    ensures Decode(packet'[1..], 0) == Decode(packet[1..], 0)
  {
    DecodePrefix(packet[1..], 0);
    var bytes := packet[1..header];
    assert packet[1..][..header - 1] == bytes;
    assert packet'[1..] == bytes + packet'[header..];
    DecodeStable(bytes, packet'[header..], 0);
  }

  lemma PatchedData(packet: seq<byte>, header: nat, first: byte, qos: nat, id: nat)
    requires 2 <= header <= |packet|
    requires qos > 0 ==> |packet[header..]| >= 2 && IdPos(packet[header..], 0) + 2 <= |packet[header..]|
    ensures qos > 0 ==> IdPos(packet, header) == header + IdPos(packet[header..], 0)
    ensures var r := Patched(packet, header, first, qos, id);
      r[0] == first && r[1..header] == packet[1..header] && r[header..] == WithId(packet[header..], qos, id)
  {
  }

  lemma IdInside(packet: seq<byte>, header: nat, version: nat, reader: Reader, aliases: Aliases, parsed: Parsed)
    requires Incoming(packet, header, version, reader, aliases, parsed) && packet[0] / 2 % 4 > 0
    ensures |packet[header..]| >= 2 && IdPos(packet[header..], 0) + 2 <= |packet[header..]|
    ensures IdPos(packet, header) == header + IdPos(packet[header..], 0)
  {
  }

  /** The parser starts in the patched packet where it did in the original one. */
  lemma PatchedStarts(packet: seq<byte>, header: nat, first: byte, qos: nat, id: nat, version: nat, reader: Reader, aliases: Aliases)
    requires 2 <= header <= |packet| && Decode(packet[1..], 0).Value? && Decode(packet[1..], 0).length == header - 1
    requires qos > 0 ==> |packet[header..]| >= 2 && IdPos(packet[header..], 0) + 2 <= |packet[header..]|
    ensures qos > 0 ==> IdPos(packet, header) + 2 <= |packet|
    ensures ParsePacket(Patched(packet, header, first, qos, id), version, reader, aliases)
         == Parse(first, WithId(packet[header..], qos, id), version, reader, aliases)
  {
    PatchedData(packet, header, first, qos, id);
    HeaderKept(packet, Patched(packet, header, first, qos, id), header);
  }

  /** Data of a packet that may be reused, with another id and other flags, as it is read by another reader. */
  lemma ReusedData(old_first: byte, data: seq<byte>, version: nat, version': nat, reader: Reader, aliases: Aliases, parsed: Parsed,
                   qos: nat, retain: bool, id: nat, reader': Reader, aliases': Aliases)
    requires Parse(old_first, data, version, reader, aliases) == Got(parsed, []) && !parsed.reading.dontReuseBites
    requires version >= MQTT_5 <==> version' >= MQTT_5
    requires qos <= 2 && (qos > 0 <==> old_first / 2 % 4 > 0) && (qos > 0 ==> 0 < id < 0x1_0000)
    requires InLimits(parsed.reading.publish.(qos := qos, retain := retain), reader', aliases')
    ensures qos > 0 ==> IdPos(data, 0) + 2 <= |data|
    ensures var m := parsed.reading.publish.(qos := qos, retain := retain);
      Received(Parse(FirstByte(qos, retain), WithId(data, qos, id), version', reader', aliases'), m, id, reader', aliases')
  {
    var first := FirstByte(qos, retain);
    FirstByteReadsBack(qos, retain);
    ParsePatched(old_first, first, data, id, version, version', reader, aliases);
    ParsedInLimits(old_first, data, version, reader, aliases);
    WithIdSame(data, old_first / 2 % 4, qos, id);
    ParseForOther(first, WithId(data, qos, id), version', reader, aliases, reader', aliases');
  }

  /**
   The bytes of an incoming packet, sent on with another id and other flags, are read as its message
   with those, by anyone within whose limits it is.
   */
  lemma PatchedReads(packet: seq<byte>, header: nat, version: nat, version': nat, reader: Reader, aliases: Aliases, parsed: Parsed,
                     qos: nat, retain: bool, id: nat, reader': Reader, aliases': Aliases)
    requires Incoming(packet, header, version, reader, aliases, parsed) && !parsed.reading.dontReuseBites
    requires version >= MQTT_5 <==> version' >= MQTT_5
    requires qos <= 2 && (qos > 0 <==> packet[0] / 2 % 4 > 0) && (qos > 0 ==> 0 < id < 0x1_0000)
    requires InLimits(parsed.reading.publish.(qos := qos, retain := retain), reader', aliases')
    ensures qos > 0 ==> IdPos(packet, header) + 2 <= |packet|
    ensures var m := parsed.reading.publish.(qos := qos, retain := retain);
      Received(ParsePacket(Patched(packet, header, FirstByte(qos, retain), qos, id), version', reader', aliases'), m, id, reader', aliases')
  {
    if qos > 0 {
      IdInside(packet, header, version, reader, aliases, parsed);
    }
    PatchedStarts(packet, header, FirstByte(qos, retain), qos, id, version', reader', aliases');
    ReusedData(packet[0], packet[header..], version, version', reader, aliases, parsed, qos, retain, id, reader', aliases');
  }

  lemma WithIdSame(data: seq<byte>, qos: nat, qos': nat, id: nat)
    requires (qos > 0 <==> qos' > 0) && (qos > 0 ==> IdPos(data, 0) + 2 <= |data|)
    ensures WithId(data, qos, id) == WithId(data, qos', id)
  {
  }

  // ---------- the duplicate flag ----------

  /** What every parsed publish has, aliases or not. */
  predicate Typed(m: Publish) {
    && m.topicAlias == 0 && m.subscriptionIdentifier == 0 && !m.skipTopic
    && (m.expire.Some? ==> m.expire.value < UINT32_VALUES)
  }

  lemma PropertyTyped(s: seq<byte>, f: Reading, reader: Reader)
    requires ReadProperty(s, f, reader).Got? && Typed(f.publish)
    ensures Typed(ReadProperty(s, f, reader).value.publish)
  {
  }

  lemma {:induction false} PropertiesTyped(s: seq<byte>, after: int, f: Reading, reader: Reader)
    requires ReadProperties(s, after, f, reader).Got? && Typed(f.publish)
    ensures Typed(ReadProperties(s, after, f, reader).value.publish) && |ReadProperties(s, after, f, reader).rest| <= |s|
    decreases |s|
  {
    if |s| > after {
      PropertiesStep(s, after, f, reader);
      PropertyTyped(s, f, reader);
      var r := ReadProperty(s, f, reader);
      PropertiesTyped(r.rest, after, r.value, reader);
    }
  }

  lemma SectionTyped(s: seq<byte>, topic: seq<byte>, aliases: Aliases, version: nat, reader: Reader)
    requires ReadPropertySection(s, Start(topic, aliases), version, reader).Got?
    ensures var r := ReadPropertySection(s, Start(topic, aliases), version, reader); Typed(r.value.publish) && |r.rest| <= |s|
  {
    if version >= MQTT_5 {
      var proplen := ReadVarInt(s);
      PropertiesTyped(proplen.rest, |proplen.rest| - proplen.value, Start(topic, aliases), reader);
    }
  }

  lemma FrontShape(first: byte, data: seq<byte>, reader: Reader)
    requires ReadFront(first, data, reader).Got?
    ensures var front, qos := ReadFront(first, data, reader), first / 2 % 4;
      && qos <= 2 && (first / 8 % 2 == 1 ==> qos > 0) && |data| >= 2
      && |front.rest| + IdPos(data, 0) + (if qos > 0 then 2 else 0) == |data|
      && ReadFront(WithoutDuplicate(first), data, reader) == front
  {
    FlagsKept(first);
  }

  lemma Flags(a: nat, d: nat, q: nat, r: nat)
    requires d < 2 && q < 4 && r < 2
    ensures var x := 16 * a + 8 * d + 2 * q + r; x / 16 == a && x / 8 % 2 == d && x / 2 % 4 == q && x % 2 == r
  {
    var x := 16 * a + 8 * d + 2 * q + r;
    assert x / 8 == 2 * a + d;
    assert x / 2 == 4 * (2 * a + d) + q;
  }

  lemma FlagsKept(first: byte)
    ensures var first' := WithoutDuplicate(first);
      && first' / 8 % 2 == 0 && first' / 2 % 4 == first / 2 % 4 && first' % 2 == first % 2 && first' / 16 == first / 16
      && (first / 16 == 3 && first / 2 % 4 <= 2 ==> first' == FirstByte(first / 2 % 4, first % 2 == 1))
  {
    var a, d, q, r := first / 16, first / 8 % 2, first / 2 % 4, first % 2;
    assert first / 2 == 4 * (first / 8) + q && first / 8 == 2 * a + d;
    assert first == 16 * a + 8 * d + 2 * q + r;
    Flags(a, 0, q, r);
  }

  /** The duplicate flag makes no difference to what is parsed, and the payload lies after the packet id. */
  lemma DuplicateIgnored(first: byte, data: seq<byte>, version: nat, reader: Reader, aliases: Aliases)
    requires Parse(first, data, version, reader, aliases).Got?
    ensures Parse(WithoutDuplicate(first), data, version, reader, aliases) == Parse(first, data, version, reader, aliases)
    ensures var m, qos := Parse(first, data, version, reader, aliases).value.reading.publish, first / 2 % 4;
      && Typed(m) && m.qos == qos <= 2 && m.retain == (first % 2 == 1)
      && IdPos(data, 0) + (if qos > 0 then 2 else 0) + |m.payload| <= |data|
  {
    FlagsKept(first);
    FrontShape(first, data, reader);
    var front := ReadFront(first, data, reader);
    SectionTyped(front.rest, front.value.0, aliases, version, reader);
  }

  /** A packet with its duplicate flag cleared holds what was parsed from it before. */
  lemma ClearedIncoming(packet: seq<byte>, header: nat, version: nat, reader: Reader, aliases: Aliases)
    requires 2 <= header <= |packet| && Decode(packet[1..], 0).Value? && Decode(packet[1..], 0).length == header - 1
    requires packet[0] / 16 == MqttSplitter.PUBLISH && Parse(packet[0], packet[header..], version, reader, aliases).Got?
    ensures var first, parsed := WithoutDuplicate(packet[0]), Parse(packet[0], packet[header..], version, reader, aliases).value;
      var packet' := packet[0 := first];
      var m := parsed.reading.publish;
      && Incoming(packet', header, version, reader, aliases, parsed)
      && Typed(m) && m.qos == packet[0] / 2 % 4 <= 2 && first == FirstByte(m.qos, first % 2 == 1)
      && IdPos(packet', header) == IdPos(packet, header)
      && IdPos(packet, header) + (if m.qos > 0 then 2 else 0) + |m.payload| <= |packet|
  {
    var data, packet' := packet[header..], packet[0 := WithoutDuplicate(packet[0])];
    DuplicateIgnored(packet[0], data, version, reader, aliases);
    FlagsKept(packet[0]);
    assert packet'[1..] == packet[1..] && packet'[header..] == data;
    FrontShape(packet[0], data, reader);
    assert data[0] == packet[header] && data[1] == packet[header + 1];
  }
}
