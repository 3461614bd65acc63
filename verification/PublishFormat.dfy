/** PUBLISH packets as bytes, section 3.3 of MQTT 5.0: what is written for a message, and how bytes are read. */
module PublishFormat {
  import opened Bits
  import opened Options
  import opened ProtocolVersions
  import opened VariableByteInts

  /** The identifiers of the properties of a PUBLISH. */
  const PAYLOAD_FORMAT: byte := 1
  const MESSAGE_EXPIRY: byte := 2
  const CONTENT_TYPE: byte := 3
  const RESPONSE_TOPIC: byte := 8
  const CORRELATION_DATA: byte := 9
  const SUBSCRIPTION_IDENTIFIER: byte := 11
  const TOPIC_ALIAS: byte := 35
  const USER_PROPERTY: byte := 38

  const MAX_USER_PROPERTIES: nat := 51

  datatype UserProperty = UserProperty(key: seq<byte>, value: seq<byte>)

  datatype Publish = Publish(
    topic: seq<byte>, payload: seq<byte>, qos: nat, retain: bool, topicAlias: nat, skipTopic: bool,
    payloadUtf8: bool, expire: Option<nat>, correlationData: Option<seq<byte>>, responseTopic: Option<seq<byte>>,
    contentType: Option<seq<byte>>, subscriptionIdentifier: nat, userProperties: seq<UserProperty>)

  datatype Property =
    | PayloadFormat(indicator: byte)
    | MessageExpiry(seconds: nat)
    | ContentType(text: seq<byte>)
    | ResponseTopic(topic: seq<byte>)
    | CorrelationData(data: seq<byte>)
    | SubscriptionIdentifier(id: nat)
    | TopicAlias(alias: nat)
    | User(property: UserProperty)

  // ---------- writing ----------

  function U16(x: nat): (r: seq<byte>)
    ensures |r| == 2
  {
    [x / 256 % 256, x % 256]
  }

  function U32(x: nat): (r: seq<byte>)
    ensures |r| == 4
  {
    U16(x / 0x1_0000) + U16(x % 0x1_0000)
  }

  function Str(s: seq<byte>): (r: seq<byte>)
    ensures |r| == 2 + |s|
  {
    U16(|s|) + s
  }

  function Kind(p: Property): byte {
    match p
    case PayloadFormat(_) => PAYLOAD_FORMAT
    case MessageExpiry(_) => MESSAGE_EXPIRY
    case ContentType(_) => CONTENT_TYPE
    case ResponseTopic(_) => RESPONSE_TOPIC
    case CorrelationData(_) => CORRELATION_DATA
    case SubscriptionIdentifier(_) => SUBSCRIPTION_IDENTIFIER
    case TopicAlias(_) => TOPIC_ALIAS
    case User(_) => USER_PROPERTY
  }

  function ValueBytes(p: Property): seq<byte> {
    match p
    case PayloadFormat(indicator) => [indicator]
    case MessageExpiry(seconds) => U32(seconds)
    case ContentType(text) => Str(text)
    case ResponseTopic(topic) => Str(topic)
    case CorrelationData(data) => Str(data)
    case SubscriptionIdentifier(id) => Encode(id)
    case TopicAlias(alias) => U16(alias)
    case User(property) => Str(property.key) + Str(property.value)
  }

  function Written(p: Property): seq<byte> {
    [Kind(p)] + ValueBytes(p)
  }

  function AllWritten(ps: seq<Property>): seq<byte> {
    if ps == [] then [] else Written(ps[0]) + AllWritten(ps[1..])
  }

  /** What fits in the bytes there are for it. */
  predicate Representable(p: Property) {
    match p
    case PayloadFormat(_) => true
    case MessageExpiry(seconds) => seconds < UINT32_VALUES
    case ContentType(text) => |text| < 0x1_0000
    case ResponseTopic(topic) => |topic| < 0x1_0000
    case CorrelationData(data) => |data| < 0x1_0000
    case SubscriptionIdentifier(id) => id <= MAX_VALUE
    case TopicAlias(alias) => alias < 0x1_0000
    case User(property) => |property.key| < 0x1_0000 && |property.value| < 0x1_0000
  }

  function UserList(users: seq<UserProperty>): (r: seq<Property>)
    ensures |r| == |users|
    ensures forall k :: 0 <= k < |r| ==> r[k] == User(users[k])
  {
    seq(|users|, k requires 0 <= k < |users| => User(users[k]))
  }

  /** The properties that are written at most once. */
  datatype Slot = Expiry | Correlation | Response | Content | Format | Alias | Subscription

  function Single(m: Publish, slot: Slot): (p: Property)
    ensures !p.User?
  {
    match slot
    case Expiry => MessageExpiry(m.expire.GetOr(0))
    case Correlation => CorrelationData(m.correlationData.GetOr([]))
    case Response => ResponseTopic(m.responseTopic.GetOr([]))
    case Content => ContentType(m.contentType.GetOr([]))
    case Format => PayloadFormat(1)
    case Alias => TopicAlias(m.topicAlias)
    case Subscription => SubscriptionIdentifier(m.subscriptionIdentifier)
  }

  /** Whether the message has it. */
  predicate Has(m: Publish, slot: Slot) {
    match slot
    case Expiry => m.expire.Some?
    case Correlation => m.correlationData.Some?
    case Response => m.responseTopic.Some?
    case Content => m.contentType.Some?
    case Format => m.payloadUtf8
    case Alias => m.topicAlias > 0
    case Subscription => m.subscriptionIdentifier > 0
  }

  function PropertiesFrom(m: Publish, slots: seq<Slot>): seq<Property> {
    if slots == [] then UserList(m.userProperties)
    else (if Has(m, slots[0]) then [Single(m, slots[0])] else []) + PropertiesFrom(m, slots[1..])
  }

  /** The order in which Publish::getPropertyBuilder writes. */
  const SLOTS: seq<Slot> := [Expiry, Correlation, Response, Content, Format, Alias, Subscription]

  function PropertiesOf(m: Publish): seq<Property> {
    PropertiesFrom(m, SLOTS)
  }

  /** The topic that goes into the packet. */
  function SentTopic(m: Publish): seq<byte> {
    if m.skipTopic then [] else m.topic
  }

  function FirstByte(qos: nat, retain: bool): byte
    requires qos <= 3
  {
    48 + 2 * qos + (if retain then 1 else 0)
  }

  function PacketId(qos: nat, id: nat): seq<byte> {
    if qos == 0 then [] else U16(id)
  }

  function SectionOf(version: nat, properties: seq<byte>): seq<byte> {
    if version < MQTT_5 then [] else Encode(|properties|) + properties
  }

  /** Everything after the fixed header, around the bytes of the properties. */
  function BodyOf(m: Publish, version: nat, id: nat, properties: seq<byte>): seq<byte> {
    Str(SentTopic(m)) + PacketId(m.qos, id) + SectionOf(version, properties) + m.payload
  }

  function PropertySection(version: nat, ps: seq<Property>): seq<byte> {
    SectionOf(version, AllWritten(ps))
  }

  function BodyWith(m: Publish, version: nat, id: nat, ps: seq<Property>): seq<byte> {
    BodyOf(m, version, id, AllWritten(ps))
  }

  function Body(m: Publish, version: nat, id: nat): seq<byte> {
    BodyWith(m, version, id, PropertiesOf(m))
  }

  /** The fixed header and what follows it. */
  function Framed(first: byte, body: seq<byte>): seq<byte> {
    [first] + Encode(|body|) + body
  }

  /** A property starts with its identifier, those of section 2.2.2.2 of MQTT 5.0. */
  lemma IdentifiersWritten(p: Property)
    ensures Written(p)[0] == match p
      case PayloadFormat(_) => 0x01
      case MessageExpiry(_) => 0x02
      case ContentType(_) => 0x03
      case ResponseTopic(_) => 0x08
      case CorrelationData(_) => 0x09
      case SubscriptionIdentifier(_) => 0x0B
      case TopicAlias(_) => 0x23
      case User(_) => 0x26
  {
  }

  /** A retained QoS 1 message that expires after 300 seconds. */
  function Expiring(a: byte, b: byte, x: byte): Publish {
    EmptyPublish([a, b], 1, true).(payload := [x], expire := Some(300))
  }

  /** Byte by byte, for MQTT 5. */
  lemma PacketWritten(a: byte, b: byte, x: byte)
    ensures Framed(FirstByte(1, true), Body(Expiring(a, b, x), 5, 0x0102)) == [0x33, 13, 0, 2, a, b, 1, 2, 5, 0x02, 0, 0, 1, 44, x]
  {
    var properties := AllWritten(PropertiesOf(Expiring(a, b, x)));
    ExpiryWritten(a, b, x);
    PartsWritten(a, b, x, 5, properties);
    assert SectionOf(5, properties) == [5] + properties;
  }

  lemma PartsWritten(a: byte, b: byte, x: byte, version: nat, properties: seq<byte>)
    ensures BodyOf(Expiring(a, b, x), version, 0x0102, properties) == [0, 2, a, b, 1, 2] + SectionOf(version, properties) + [x]
  {
  }

  /** ... and for MQTT 3.1.1. */
  lemma OldPacketWritten(a: byte, b: byte, x: byte)
    ensures Framed(FirstByte(1, true), Body(Expiring(a, b, x), 4, 0x0102)) == [0x33, 7, 0, 2, a, b, 1, 2, x]
  {
    PartsWritten(a, b, x, 4, AllWritten(PropertiesOf(Expiring(a, b, x))));
  }

  lemma ExpiryWritten(a: byte, b: byte, x: byte)
    ensures AllWritten(PropertiesOf(Expiring(a, b, x))) == [2, 0, 0, 1, 44]
  {
    var p := MessageExpiry(300);
    NoneWritten(Expiring(a, b, x), SLOTS[1..]);
    assert PropertiesOf(Expiring(a, b, x)) == [p];
    assert AllWritten([p]) == Written(p) by { assert [p][1..] == []; }
  }

  lemma {:induction false} NoneWritten(m: Publish, slots: seq<Slot>)
    requires m.userProperties == [] && forall slot :: slot in slots ==> !Has(m, slot)
    ensures PropertiesFrom(m, slots) == []
  {
    if slots != [] {
      NoneWritten(m, slots[1..]);
    }
  }

  // ---------- reading ----------

  datatype Error =
    | MalformedPacket | ProtocolViolation | TopicAliasInvalid | PayloadFormatInvalid | TooManyUserProperties
    | StringTooLong | NumberTooBig

  /** A value and the bytes after it, or the exception thrown. */
  datatype Read<T> = Got(value: T, rest: seq<byte>) | Fail(error: Error) {
    predicate IsFailure() {
      Fail?
    }

    function PropagateFailure<U>(): Read<U>
      requires Fail?
    {
      Fail(error)
    }

    function Extract(): Read<T>
      requires Got?
    {
      this
    }
  }

  /** How strings are checked: not at all, as UTF-8, or as UTF-8 without what a topic may not have. */
  datatype Check = Raw | Utf8 | Topic

  /** Who reads: its limits, its UTF-8 check, from whom it reads, and whether it is a testing build. */
  datatype Reader = Reader(
    maxStringLength: nat, isValidUtf8: (seq<byte>, bool) -> bool, maxIncomingTopicAliasValue: nat, localBridge: bool,
    testing: bool)

  /** The topic aliases set so far. */
  type Aliases = map<nat, seq<byte>>

  predicate Passes(s: seq<byte>, check: Check, reader: Reader) {
    check == Raw || reader.isValidUtf8(s, check == Topic)
  }

  /** Subscription identifiers are for clients; a server takes them from a local bridge, and in a testing build from anyone. */
  predicate TakesIdentifiers(reader: Reader) {
    reader.testing || reader.localBridge
  }

  /** What is kept of one: only a testing build stores it. */
  function StoredIdentifier(id: nat, reader: Reader): nat {
    if reader.testing then id else 0
  }

  /** What has been read of the properties. */
  datatype Reading = Reading(
    pcounts: set<byte>, publish: Publish, aliases: Aliases, subscriptionIdentifier: nat, dontReuseBites: bool)

  function ReadBytes(s: seq<byte>, length: nat): Read<seq<byte>> {
    if length > |s| then Fail(MalformedPacket) else Got(s[..length], s[length..])
  }

  function ReadByte(s: seq<byte>): Read<byte> {
    if 1 > |s| then Fail(MalformedPacket) else Got(s[0], s[1..])
  }

  function Word(a: nat, b: nat): nat {
    256 * a + b
  }

  function ReadU16(s: seq<byte>): Read<nat> {
    if 2 > |s| then Fail(MalformedPacket) else Got(Word(s[0], s[1]), s[2..])
  }

  function ReadU32(s: seq<byte>): Read<nat> {
    if 4 > |s| then Fail(MalformedPacket) else Got(0x1_0000 * Word(s[0], s[1]) + Word(s[2], s[3]), s[4..])
  }

  function ReadVarInt(s: seq<byte>): (r: Read<nat>)
    ensures r.Got? ==> |r.rest| < |s|
  {
    match Decode(s, 0)
    case Value(value, length) => DecodeStable(s, [], 0); Got(value, s[length..])
    case NeedMore => Fail(MalformedPacket)
    case Malformed => Fail(MalformedPacket)
  }

  function ReadStr(s: seq<byte>, check: Check, reader: Reader): (r: Read<seq<byte>>)
    ensures r.Got? ==> |r.rest| < |s|
    ensures r.Got? ==> |r.value| <= reader.maxStringLength && |r.value| < 0x1_0000 && Passes(r.value, check, reader)
  {
    var len :- ReadU16(s);
    if len.value > reader.maxStringLength then Fail(StringTooLong)
    else
      var result :- ReadBytes(len.rest, len.value);
      if Passes(result.value, check, reader) then result else Fail(MalformedPacket)
  }

  /** Client::setTopicAlias and Client::getTopicAlias, as a PUBLISH uses them. */
  function UseAlias(aliases: Aliases, maxAlias: nat, alias: nat, topic: seq<byte>): (r: Option<(Aliases, seq<byte>)>) {
    if alias == 0 then None
    else if topic == [] then (if alias in aliases then Some((aliases, aliases[alias])) else None)
    else if alias > maxAlias then None
    else Some((aliases[alias := topic], topic))
  }

  function ReadAlias(s: seq<byte>, f: Reading, reader: Reader): Read<Reading> {
    var alias :- ReadU16(s);
    match UseAlias(f.aliases, reader.maxIncomingTopicAliasValue, alias.value, f.publish.topic)
    case None => Fail(TopicAliasInvalid)
    case Some(r) => Got(f.(dontReuseBites := true, aliases := r.0, publish := f.publish.(topic := r.1)), alias.rest)
  }

  function ReadResponseTopic(s: seq<byte>, f: Reading, reader: Reader): Read<Reading> {
    var topic :- ReadStr(s, Topic, reader);
    if topic.value == [] then Fail(ProtocolViolation)
    else Got(f.(publish := f.publish.(responseTopic := Some(topic.value))), topic.rest)
  }

  function ReadUserProperty(s: seq<byte>, f: Reading, reader: Reader): Read<Reading> {
    var key :- ReadStr(s, Utf8, reader);
    var val :- ReadStr(key.rest, Utf8, reader);
    if |f.publish.userProperties| > 50 then Fail(TooManyUserProperties)
    else Got(f.(publish := f.publish.(userProperties := f.publish.userProperties + [UserProperty(key.value, val.value)])), val.rest)
  }

  function ReadSubscriptionIdentifier(s: seq<byte>, f: Reading, reader: Reader): Read<Reading> {
    if !TakesIdentifiers(reader) then Fail(ProtocolViolation)
    else
      var id :- ReadVarInt(s);
      Got(f.(dontReuseBites := true, subscriptionIdentifier := StoredIdentifier(id.value, reader)), id.rest)
  }

  /** A property that may come once. */
  function ReadSingle(kind: byte, s: seq<byte>, f: Reading, reader: Reader): Read<Reading> {
    if kind == PAYLOAD_FORMAT then
      var b :- ReadByte(s);
      Got(f.(publish := f.publish.(payloadUtf8 := b.value != 0)), b.rest)
    else if kind == MESSAGE_EXPIRY then
      var x :- ReadU32(s);
      Got(f.(publish := f.publish.(expire := Some(x.value))), x.rest)
    else if kind == TOPIC_ALIAS then ReadAlias(s, f, reader)
    else if kind == RESPONSE_TOPIC then ReadResponseTopic(s, f, reader)
    else if kind == CORRELATION_DATA then
      var data :- ReadStr(s, Raw, reader);
      Got(f.(publish := f.publish.(correlationData := Some(data.value))), data.rest)
    else if kind == SUBSCRIPTION_IDENTIFIER then ReadSubscriptionIdentifier(s, f, reader)
    else if kind == CONTENT_TYPE then
      var text :- ReadStr(s, Utf8, reader);
      Got(f.(publish := f.publish.(contentType := Some(text.value))), text.rest)
    else Fail(ProtocolViolation)
  }

  function ReadProperty(s: seq<byte>, f: Reading, reader: Reader): (r: Read<Reading>)
    ensures r.Got? ==> |r.rest| < |s|
  {
    var prop :- ReadByte(s);
    if prop.value == USER_PROPERTY then ReadUserProperty(prop.rest, f, reader)
    else if prop.value in f.pcounts then Fail(ProtocolViolation)
    else ReadSingle(prop.value, prop.rest, f.(pcounts := f.pcounts + {prop.value}), reader)
  }

  /** The loop over the properties; `after` bytes should be left. */
  function ReadProperties(s: seq<byte>, after: int, f: Reading, reader: Reader): Read<Reading>
    decreases |s|
  {
    if |s| < after then Fail(MalformedPacket)
    else if |s| == after then Got(f, s)
    else
      var r :- ReadProperty(s, f, reader);
      ReadProperties(r.rest, after, r.value, reader)
  }

  function ReadPropertySection(s: seq<byte>, f: Reading, version: nat, reader: Reader): Read<Reading> {
    if version < MQTT_5 then Got(f, s)
    else
      var proplen :- ReadVarInt(s);
      ReadProperties(proplen.rest, |proplen.rest| - proplen.value, f, reader)
  }

  function ReadPacketId(s: seq<byte>, qos: nat): Read<nat> {
    if qos == 0 then Got(0, s)
    else
      var id :- ReadU16(s);
      if id.value == 0 then Fail(MalformedPacket) else id
  }

  function EmptyPublish(topic: seq<byte>, qos: nat, retain: bool): Publish {
    Publish(topic, [], qos, retain, 0, false, false, None, None, None, None, 0, [])
  }

  function Start(topic: seq<byte>, aliases: Aliases): Reading {
    Reading({}, EmptyPublish(topic, 0, false), aliases, 0, false)
  }

  datatype Parsed = Parsed(reading: Reading, packetId: nat)

  /** The last checks; the flags of the first byte and the payload complete the publish. */
  function Finish(first: byte, packetId: nat, f: Reading, payload: seq<byte>, reader: Reader): Read<Parsed> {
    if f.publish.topic == [] then Fail(ProtocolViolation)
    else if f.publish.payloadUtf8 && !reader.isValidUtf8(payload, false) then Fail(PayloadFormatInvalid)
    else
      var publish := f.publish.(qos := first / 2 % 4, retain := first % 2 == 1, payload := payload);
      Got(Parsed(f.(publish := publish), packetId), [])
  }

  /** The topic and the packet id, which come before the properties. */
  function ReadFront(first: byte, data: seq<byte>, reader: Reader): Read<(seq<byte>, nat)> {
    var duplicate, qos := first / 8 % 2 == 1, first / 2 % 4;
    if qos > 2 || (qos == 0 && duplicate) then Fail(MalformedPacket)
    else
      var topic :- ReadStr(data, Topic, reader);
      var id :- ReadPacketId(topic.rest, qos);
      Got((topic.value, id.value), id.rest)
  }

  /** The properties and the payload, which come after the packet id. */
  function ReadBack(first: byte, packetId: nat, s: seq<byte>, f: Reading, version: nat, reader: Reader): Read<Parsed> {
    var f' :- ReadPropertySection(s, f, version, reader);
    Finish(first, packetId, f'.value, f'.rest, reader)
  }

  /** MqttPacket::parsePublishData on the bytes after the fixed header. */
  function Parse(first: byte, data: seq<byte>, version: nat, reader: Reader, aliases: Aliases): Read<Parsed> {
    var front :- ReadFront(first, data, reader);
    ReadBack(first, front.value.1, front.rest, Start(front.value.0, aliases), version, reader)
  }

  /** MqttPacket(bytes, fixed_header_length): a whole packet, its header included. */
  function ParsePacket(packet: seq<byte>, version: nat, reader: Reader, aliases: Aliases): Read<Parsed>
    requires packet != []
  {
    match Decode(packet[1..], 0)
    case Value(_, length) => DecodeStable(packet[1..], [], 0); Parse(packet[0], packet[1 + length..], version, reader, aliases)
    case NeedMore => Fail(MalformedPacket)
    case Malformed => Fail(MalformedPacket)
  }
}
