/** MqttPacket, as far as PUBLISH packets go: one byte vector, written and read through a moving position. */
module MqttPackets {
  import opened CirBufs
  import opened Bits
  import opened Options
  import opened ProtocolVersions
  import opened VariableByteInts
  import opened PublishFormat
  import opened PropertyBuilders

  /** A value, or the exception thrown. */
  datatype Result<T> = Ok(value: T) | Err(error: Error) {
    predicate IsFailure() {
      Err?
    }

    function PropagateFailure(): Status
      requires Err?
    {
      Thrown(error)
    }

    function Extract(): T
      requires Ok?
    {
      value
    }
  }

  /** The sender of a packet: how it is to be read, and the topic aliases it has set. */
  class Client {
    const limits: Reader
    var incomingTopicAliases: Aliases

    constructor (limits: Reader)
      ensures this.limits == limits && incomingTopicAliases == map[]
    {
      this.limits, incomingTopicAliases := limits, map[];
    }

    method SetTopicAlias(alias_id: nat, topic: seq<byte>) returns (status: Status)
      modifies this`incomingTopicAliases
      ensures alias_id == 0 ==> status == Thrown(ProtocolViolation)
      ensures alias_id != 0 && topic != [] ==>
        match UseAlias(old(incomingTopicAliases), limits.maxIncomingTopicAliasValue, alias_id, topic)
        case None => status == Thrown(TopicAliasInvalid)
        case Some(r) => status == Fine && incomingTopicAliases == r.0
      ensures status.Thrown? || topic == [] ==> incomingTopicAliases == old(incomingTopicAliases)
    {
      if alias_id == 0 {
        return Thrown(ProtocolViolation);
      }
      if topic == [] {
        return Fine;
      }
      if alias_id > limits.maxIncomingTopicAliasValue {
        return Thrown(TopicAliasInvalid);
      }
      incomingTopicAliases := incomingTopicAliases[alias_id := topic];
      status := Fine;
    }

    method GetTopicAlias(id: nat) returns (r: Result<seq<byte>>)
      ensures id != 0 ==>
        match UseAlias(incomingTopicAliases, limits.maxIncomingTopicAliasValue, id, [])
        case None => r == Err(TopicAliasInvalid)
        case Some(found) => r == Ok(found.1) && found.0 == incomingTopicAliases
    {
      if id !in incomingTopicAliases {
        return Err(TopicAliasInvalid);
      }
      r := Ok(incomingTopicAliases[id]);
    }
  }

  class MqttPacket {
    var protocolVersion: nat
    var bites: seq<byte>
    var pos: nat
    var fixed_header_length: nat
    var first_byte: byte
    var packet_id: nat
    var packet_id_pos: nat
    var publishData: Publish
    var payloadStart: nat
    var payloadLen: nat
    var dontReuseBites: bool
    var subscriptionIdentifierTesting: nat

    ghost predicate InBounds()
      reads this
    {
      pos <= |bites|
    }

    ghost function Rest(): seq<byte>
      reads this
      requires InBounds()
    {
      bites[pos..]
    }

    /** The call read as the specification reads. */
    ghost predicate Did<T>(spec: Read<T>, r: Result<T>)
      reads this
    {
      match spec
      case Got(value, rest) => r == Ok(value) && pos <= |bites| && bites[pos..] == rest
      case Fail(error) => r == Err(error)
    }

    // ---------- reading ----------

    method ReadBytes(length: nat) returns (r: Result<seq<byte>>)
      requires InBounds()
      modifies this`pos
      ensures InBounds() && Did(PublishFormat.ReadBytes(old(Rest()), length), r)
    {
      if pos + length > |bites| {
        return Err(MalformedPacket);
      }
      var result := bites[pos..pos + length];
      assert bites[pos..][..length] == result && bites[pos..][length..] == bites[pos + length..];
      pos := pos + length;
      r := Ok(result);
    }

    method ReadByte() returns (r: Result<byte>)
      requires InBounds()
      modifies this`pos
      ensures InBounds() && Did(PublishFormat.ReadByte(old(Rest())), r)
    {
      if pos + 1 > |bites| {
        return Err(MalformedPacket);
      }
      pos := pos + 1;
      r := Ok(bites[pos - 1]);
    }

    method ReadTwoBytesToUInt16() returns (r: Result<nat>)
      requires InBounds()
      modifies this`pos
      ensures InBounds() && Did(ReadU16(old(Rest())), r)
    {
      if pos + 2 > |bites| {
        return Err(MalformedPacket);
      }
      r := Ok(Word(bites[pos], bites[pos + 1]));
      assert bites[pos..][2..] == bites[pos + 2..];
      pos := pos + 2;
    }

    method ReadFourBytesToUint32() returns (r: Result<nat>)
      requires InBounds()
      modifies this`pos
      ensures InBounds() && Did(ReadU32(old(Rest())), r)
    {
      if pos + 4 > |bites| {
        return Err(MalformedPacket);
      }
      var a: nat, b: nat, c: nat, d: nat := bites[pos], bites[pos + 1], bites[pos + 2], bites[pos + 3];
      assert 0x100_0000 * a + 0x1_0000 * b + 256 * c + d == 0x1_0000 * Word(a, b) + Word(c, d);
      assert bites[pos..][4..] == bites[pos + 4..];
      r := Ok(0x100_0000 * a + 0x1_0000 * b + 256 * c + d);
      pos := pos + 4;
    }

    method DecodeVariableByteIntAtPos() returns (r: Result<nat>)
      requires InBounds()
      modifies this`pos
      ensures InBounds() && Did(ReadVarInt(old(Rest())), r)
    {
      ghost var s, start := Rest(), pos;
      var multiplier: nat, value: nat := 1, 0;
      ghost var k: nat := 0;
      while true
        invariant k <= 4 && pos == start + k && pos <= |bites| && multiplier == Pow128(k)
        invariant Decode(s, 0) == Later(Decode(s, k), value)
        decreases 4 - k
        modifies this`pos
      {
        if pos >= |bites| {
          return Err(MalformedPacket);
        }
        VarIntRound(s, k, value, multiplier);
        var encodedByte := bites[pos];
        pos := pos + 1;
        value := value + (encodedByte % 128) * multiplier;
        multiplier := multiplier * 128;
        if multiplier > MULTIPLIER_LIMIT {
          return Err(MalformedPacket);
        }
        k := k + 1;
        if encodedByte < 128 {
          assert s[k..] == bites[pos..];
          return Ok(value);
        }
      }
    }

    method ReadBytesToString(check: Check, sender: Client) returns (r: Result<seq<byte>>)
      requires InBounds()
      modifies this`pos
      ensures InBounds() && Did(ReadStr(old(Rest()), check, sender.limits), r)
    {
      var len := ReadTwoBytesToUInt16();
      if len.Err? {
        return Err(len.error);
      }
      if len.value > sender.limits.maxStringLength {
        return Err(StringTooLong);
      }
      var result := ReadBytes(len.value);
      if result.Err? {
        return result;
      }
      if check != Raw && !sender.limits.isValidUtf8(result.value, check == Topic) {
        return Err(MalformedPacket);
      }
      r := result;
    }

    // ---------- parsePublishData ----------

    ghost function Progress(pcounts: set<byte>, sender: Client): Reading
      reads this, sender
    {
      Reading(pcounts, publishData.(qos := 0, retain := false), sender.incomingTopicAliases, subscriptionIdentifierTesting, dontReuseBites)
    }

    /** What reading the properties leaves alone. */
    ghost function Flags(): (nat, bool, seq<byte>)
      reads this
    {
      (publishData.qos, publishData.retain, publishData.payload)
    }

    ghost predicate DidRead(spec: Read<Reading>, status: Status, pcounts: set<byte>, sender: Client)
      reads this, sender
    {
      match spec
      case Got(f, rest) => status == Fine && pos <= |bites| && bites[pos..] == rest && Progress(pcounts, sender) == f
      case Fail(error) => status == Thrown(error)
    }

    method ReadAliasProperty(ghost pcounts: set<byte>, sender: Client) returns (status: Status)
      requires InBounds()
      modifies this`pos, this`publishData, this`dontReuseBites, sender`incomingTopicAliases
      ensures InBounds() && Flags() == old(Flags()) && DidRead(ReadAlias(old(Rest()), old(Progress(pcounts, sender)), sender.limits), status, pcounts, sender)
    {
      var alias_id :- ReadTwoBytesToUInt16();
      if alias_id == 0 {
        return Thrown(TopicAliasInvalid);
      }
      dontReuseBites := true;
      if publishData.topic == [] {
        var topic :- sender.GetTopicAlias(alias_id);
        publishData := publishData.(topic := topic);
      } else {
        :- sender.SetTopicAlias(alias_id, publishData.topic);
      }
      status := Fine;
    }

    method ReadResponseTopicProperty(ghost pcounts: set<byte>, sender: Client) returns (status: Status)
      requires InBounds()
      modifies this`pos, this`publishData
      ensures InBounds() && Flags() == old(Flags()) && DidRead(ReadResponseTopic(old(Rest()), old(Progress(pcounts, sender)), sender.limits), status, pcounts, sender)
    {
      var topic :- ReadBytesToString(Topic, sender);
      publishData := publishData.(responseTopic := Some(topic));
      if topic == [] {
        return Thrown(ProtocolViolation);
      }
      status := Fine;
    }

    method ReadUserPropertyProperty(ghost pcounts: set<byte>, sender: Client) returns (status: Status)
      requires InBounds()
      modifies this`pos, this`publishData
      ensures InBounds() && Flags() == old(Flags()) && DidRead(ReadUserProperty(old(Rest()), old(Progress(pcounts, sender)), sender.limits), status, pcounts, sender)
    {
      var key :- ReadBytesToString(Utf8, sender);
      var val :- ReadBytesToString(Utf8, sender);
      if |publishData.userProperties| > 50 {
        return Thrown(TooManyUserProperties);
      }
      publishData := publishData.(userProperties := publishData.userProperties + [UserProperty(key, val)]);
      status := Fine;
    }

    method ReadSubscriptionIdentifierProperty(ghost pcounts: set<byte>, sender: Client) returns (status: Status)
      requires InBounds()
      modifies this`pos, this`dontReuseBites, this`subscriptionIdentifierTesting
      ensures InBounds()
      ensures DidRead(ReadSubscriptionIdentifier(old(Rest()), old(Progress(pcounts, sender)), sender.limits), status, pcounts, sender)
    {
      dontReuseBites := true;
      if !sender.limits.testing && !sender.limits.localBridge {
        return Thrown(ProtocolViolation);
      }
      var id :- DecodeVariableByteIntAtPos();
      subscriptionIdentifierTesting := if sender.limits.testing then id else 0;
      status := Fine;
    }

    /** The cases of the switch for the properties that may come once. */
    method ReadSingleProperty(prop: byte, ghost pcounts: set<byte>, sender: Client) returns (status: Status)
      requires InBounds()
      modifies this`pos, this`publishData, this`dontReuseBites, this`subscriptionIdentifierTesting, sender`incomingTopicAliases
      ensures InBounds() && Flags() == old(Flags())
      ensures DidRead(ReadSingle(prop, old(Rest()), old(Progress(pcounts, sender)), sender.limits), status, pcounts, sender)
    {
      status := Fine;
      if prop == PAYLOAD_FORMAT {
        var b :- ReadByte();
        publishData := publishData.(payloadUtf8 := b != 0);
      } else if prop == MESSAGE_EXPIRY {
        var x :- ReadFourBytesToUint32();
        publishData := publishData.(expire := Some(x));
      } else if prop == TOPIC_ALIAS {
        status := ReadAliasProperty(pcounts, sender);
      } else if prop == RESPONSE_TOPIC {
        status := ReadResponseTopicProperty(pcounts, sender);
      } else if prop == CORRELATION_DATA {
        var data :- ReadBytesToString(Raw, sender);
        publishData := publishData.(correlationData := Some(data));
      } else if prop == SUBSCRIPTION_IDENTIFIER {
        status := ReadSubscriptionIdentifierProperty(pcounts, sender);
      } else if prop == CONTENT_TYPE {
        var text :- ReadBytesToString(Utf8, sender);
        publishData := publishData.(contentType := Some(text));
      } else {
        status := Thrown(ProtocolViolation);
      }
    }

    /** One round of the loop over the properties; `pcounts` are the ones seen. */
    method ReadOneProperty(pcounts: set<byte>, sender: Client) returns (status: Status, pcounts': set<byte>)
      requires InBounds()
      modifies this`pos, this`publishData, this`dontReuseBites, this`subscriptionIdentifierTesting, sender`incomingTopicAliases
      ensures InBounds() && Flags() == old(Flags())
      ensures DidRead(ReadProperty(old(Rest()), old(Progress(pcounts, sender)), sender.limits), status, pcounts', sender)
    {
      pcounts' := pcounts;
      var prop := ReadByte();
      if prop.Err? {
        status := Thrown(prop.error);
      } else if prop.value == USER_PROPERTY {
        status := ReadUserPropertyProperty(pcounts, sender);
      } else if prop.value in pcounts {
        status := Thrown(ProtocolViolation);
      } else {
        pcounts' := pcounts + {prop.value};
        status := ReadSingleProperty(prop.value, pcounts', sender);
      }
    }

    method ReadPropertyLoop(prop_end_at: nat, sender: Client) returns (status: Status, ghost pcounts: set<byte>)
      requires InBounds()
      modifies this`pos, this`publishData, this`dontReuseBites, this`subscriptionIdentifierTesting, sender`incomingTopicAliases
      ensures InBounds() && Flags() == old(Flags())
      ensures DidRead(ReadProperties(old(Rest()), |bites| - prop_end_at, old(Progress({}, sender)), sender.limits), status, pcounts, sender)
    {
      var seen: set<byte> := {};
      ghost var after := |bites| - prop_end_at;
      ghost var all := ReadProperties(Rest(), after, Progress({}, sender), sender.limits);
      while pos < prop_end_at
        invariant InBounds() && Flags() == old(Flags()) && all == ReadProperties(Rest(), after, Progress(seen, sender), sender.limits)
        decreases |bites| - pos
        modifies this`pos, this`publishData, this`dontReuseBites, this`subscriptionIdentifierTesting, sender`incomingTopicAliases
      {
        PropertiesStep(Rest(), after, Progress(seen, sender), sender.limits);
        status, seen := ReadOneProperty(seen, sender);
        if status.Thrown? {
          return status, seen;
        }
      }
      status := if pos > prop_end_at then Thrown(MalformedPacket) else Fine;
      pcounts := seen;
    }

    method ReadPropertiesIfAny(sender: Client) returns (status: Status, ghost pcounts: set<byte>)
      requires InBounds()
      modifies this`pos, this`publishData, this`dontReuseBites, this`subscriptionIdentifierTesting, sender`incomingTopicAliases
      ensures InBounds() && Flags() == old(Flags())
      ensures DidRead(ReadPropertySection(old(Rest()), old(Progress({}, sender)), protocolVersion, sender.limits), status, pcounts, sender)
    {
      status, pcounts := Fine, {};
      if protocolVersion >= MQTT_5 {
        status, pcounts := ReadPropertyBlock(sender);
      }
    }

    method ReadPropertyBlock(sender: Client) returns (status: Status, ghost pcounts: set<byte>)
      requires InBounds() && protocolVersion >= MQTT_5
      modifies this`pos, this`publishData, this`dontReuseBites, this`subscriptionIdentifierTesting, sender`incomingTopicAliases
      ensures InBounds() && Flags() == old(Flags())
      ensures DidRead(ReadPropertySection(old(Rest()), old(Progress({}, sender)), protocolVersion, sender.limits), status, pcounts, sender)
    {
      var proplen := DecodeVariableByteIntAtPos();
      if proplen.Err? {
        return Thrown(proplen.error), {};
      }
      assert |bites| - (pos + proplen.value) == |Rest()| - proplen.value;
      status, pcounts := ReadPropertyLoop(pos + proplen.value, sender);
    }

    method ReadPacketIdIfAny() returns (status: Status)
      requires InBounds() && packet_id == 0
      modifies this`pos, this`packet_id, this`packet_id_pos
      ensures InBounds()
      ensures match PublishFormat.ReadPacketId(old(Rest()), publishData.qos)
              case Got(id, rest) => status == Fine && packet_id == id && Rest() == rest
              case Fail(error) => status == Thrown(error)
      ensures publishData.qos > 0 ==> packet_id_pos == old(pos)
    {
      if publishData.qos > 0 {
        packet_id_pos := pos;
        packet_id :- ReadTwoBytesToUInt16();
        if packet_id == 0 {
          return Thrown(MalformedPacket);
        }
      }
      status := Fine;
    }

    /** A packet as it came out of the buffer, before anything in it has been looked at. */
    ghost predicate Unparsed()
      reads this
    {
      && publishData == EmptyPublish([], 0, false) && packet_id == 0 && !dontReuseBites && subscriptionIdentifierTesting == 0
      && fixed_header_length <= |bites|
    }

    /** The flags, the topic and the packet id. */
    method ParseFront(sender: Client) returns (status: Status)
      requires Unparsed()
      modifies this`pos, this`publishData, this`packet_id, this`packet_id_pos
      ensures InBounds()
      ensures match ReadFront(first_byte, bites[fixed_header_length..], sender.limits)
              case Got(front, rest) =>
                && status == Fine && Rest() == rest && packet_id == front.1
                && publishData == EmptyPublish(front.0, first_byte / 2 % 4, first_byte % 2 == 1)
                && (publishData.qos > 0 ==> packet_id_pos == fixed_header_length + 2 + |front.0|)
              case Fail(error) => status == Thrown(error)
    {
      pos := fixed_header_length;
      var retain, duplicate, qos := first_byte % 2 == 1, first_byte / 8 % 2 == 1, first_byte / 2 % 4;
      if qos > 2 {
        return Thrown(MalformedPacket);
      }
      if qos == 0 && duplicate {
        return Thrown(MalformedPacket);
      }
      var topic :- ReadBytesToString(Topic, sender);
      publishData := EmptyPublish(topic, qos, retain);
      status := ReadPacketIdIfAny();
    }

    /** The last checks; the payload is what is left. */
    method TakePayload(ghost pcounts: set<byte>, sender: Client) returns (status: Status)
      requires InBounds() && Flags() == (first_byte / 2 % 4, first_byte % 2 == 1, [])
      modifies this`payloadStart, this`payloadLen
      ensures match Finish(first_byte, packet_id, Progress(pcounts, sender), Rest(), sender.limits)
              case Got(parsed, _) => status == Fine && Holds(parsed, sender.incomingTopicAliases)
              case Fail(error) => status == Thrown(error)
    {
      if publishData.topic == [] {
        return Thrown(ProtocolViolation);
      }
      payloadLen := |bites| - pos;
      payloadStart := pos;
      assert bites[payloadStart..payloadStart + payloadLen] == Rest();
      if publishData.payloadUtf8 && !sender.limits.isValidUtf8(bites[payloadStart..payloadStart + payloadLen], false) {
        return Thrown(PayloadFormatInvalid);
      }
      status := Fine;
    }

    /** What comes after the packet id. */
    method ParseBack(sender: Client) returns (status: Status)
      requires InBounds() && Flags() == (first_byte / 2 % 4, first_byte % 2 == 1, [])
      modifies this`pos, this`publishData, this`dontReuseBites, this`subscriptionIdentifierTesting
      modifies this`payloadStart, this`payloadLen, sender`incomingTopicAliases
      ensures match ReadBack(first_byte, packet_id, old(Rest()), old(Progress({}, sender)), protocolVersion, sender.limits)
              case Got(parsed, _) => status == Fine && Holds(parsed, sender.incomingTopicAliases)
              case Fail(error) => status == Thrown(error)
      ensures status.Fine? ==> publishData.payload == []
    {
      ghost var pcounts;
      status, pcounts := ReadPropertiesIfAny(sender);
      if status.Fine? {
        status := TakePayload(pcounts, sender);
      }
    }

    /** MqttPacket::parsePublishData. */
    method ParsePublishData(sender: Client) returns (status: Status)
      requires Unparsed()
      modifies this`pos, this`publishData, this`packet_id, this`packet_id_pos, this`dontReuseBites
      modifies this`subscriptionIdentifierTesting, this`payloadStart, this`payloadLen, sender`incomingTopicAliases
      ensures match Parse(first_byte, bites[fixed_header_length..], protocolVersion, sender.limits, old(sender.incomingTopicAliases))
              case Got(parsed, _) => status == Fine && Holds(parsed, sender.incomingTopicAliases)
              case Fail(error) => status == Thrown(error)
      ensures status.Fine? ==> publishData.payload == []
      ensures status.Fine? && first_byte / 2 % 4 > 0 ==> packet_id_pos == IdPos(bites, fixed_header_length)
    {
      FrontEnd(first_byte, bites[fixed_header_length..], sender.limits);
      :- ParseFront(sender);
      status := ParseBack(sender);
    }

    /** The packet holds what was parsed; the payload stays where it is in the bytes. */
    ghost predicate Holds(parsed: Parsed, aliases: Aliases)
      reads this
    {
      && payloadStart + payloadLen == |bites|
      && parsed.reading.publish == publishData.(payload := bites[payloadStart..])
      && parsed.packetId == packet_id
      && parsed.reading.aliases == aliases && parsed.reading.dontReuseBites == dontReuseBites
      && parsed.reading.subscriptionIdentifier == subscriptionIdentifierTesting
    }

    // ---------- constructors ----------

    /** MqttPacket(packet_bytes, fixed_header_length, sender), as far as it sets fields. */
    constructor Incoming(packet_bytes: seq<byte>, fixed_header_length: nat, protocolVersion: nat)
      requires 2 <= |packet_bytes| && fixed_header_length <= |packet_bytes|
      ensures Unparsed() && bites == packet_bytes && first_byte == packet_bytes[0]
      ensures this.fixed_header_length == fixed_header_length && this.protocolVersion == protocolVersion
    {
      this.protocolVersion, this.fixed_header_length := protocolVersion, fixed_header_length;
      bites, first_byte, pos := packet_bytes, packet_bytes[0], fixed_header_length;
      publishData := EmptyPublish([], 0, false);
      packet_id, packet_id_pos, payloadStart, payloadLen := 0, 0, 0, 0;
      dontReuseBites, subscriptionIdentifierTesting := false, 0;
    }

    /** The part of the constructor for a PUBLISH before anything is written: `len` bytes of room. */
    constructor Outgoing(protocolVersion: nat, m: Publish, len: nat)
      requires m.qos <= 2
      ensures bites == seq(len, _ => 0) && pos == 0 && fixed_header_length == 0 && packet_id == 0 && packet_id_pos == 0
      ensures this.protocolVersion == protocolVersion && first_byte == FirstByte(m.qos, m.retain)
      ensures publishData == PacketData(m, protocolVersion)
    {
      this.protocolVersion, fixed_header_length := protocolVersion, 0;
      bites, pos := seq(len, _ => 0), 0;
      first_byte := FirstByte(m.qos, m.retain);
      publishData := PacketData(m, protocolVersion);
      packet_id, packet_id_pos, payloadStart, payloadLen := 0, 0, 0, 0;
      dontReuseBites, subscriptionIdentifierTesting := false, 0;
    }

    // ---------- writing ----------

    method Write(src: seq<byte>) returns (status: Status)
      requires InBounds()
      modifies this`pos, this`bites
      ensures InBounds()
      ensures status == if old(pos) + |src| > |old(bites)| then Thrown(MalformedPacket) else Fine
      ensures status.Fine? ==> pos == old(pos) + |src| && bites == Copied(old(bites), old(pos), src)
      ensures status.Fine? ==> bites[..pos] == old(bites[..pos]) + src
      ensures |bites| == |old(bites)|
    {
      if pos + |src| > |bites| {
        return Thrown(MalformedPacket);
      }
      bites := Copied(bites, pos, src);
      pos := pos + |src|;
      status := Fine;
    }

    method WriteByte(b: byte) returns (status: Status)
      requires InBounds()
      modifies this`pos, this`bites
      ensures InBounds()
      ensures status == if old(pos) + 1 > |old(bites)| then Thrown(MalformedPacket) else Fine
      ensures status.Fine? ==> pos == old(pos) + 1 && bites == old(bites)[old(pos) := b]
      ensures |bites| == |old(bites)|
    {
      if pos + 1 > |bites| {
        return Thrown(MalformedPacket);
      }
      bites := bites[pos := b];
      pos := pos + 1;
      status := Fine;
    }

    method WriteUint16(x: nat) returns (status: Status)
      requires InBounds() && x < 0x1_0000
      modifies this`pos, this`bites
      ensures InBounds()
      ensures status == if old(pos) + 2 > |old(bites)| then Thrown(MalformedPacket) else Fine
      ensures status.Fine? ==> pos == old(pos) + 2 && bites == Copied(old(bites), old(pos), U16(x))
      ensures status.Fine? ==> bites[..pos] == old(bites[..pos]) + U16(x)
      ensures |bites| == |old(bites)|
    {
      if pos + 2 > |bites| {
        return Thrown(MalformedPacket);
      }
      ghost var b := bites;
      bites := bites[pos := x / 256];
      bites := bites[pos + 1 := x % 256];
      assert bites == Copied(b, pos, U16(x));
      pos := pos + 2;
      status := Fine;
    }

    /** `written` fills the vector up to the position. */
    ghost predicate Filled(written: seq<byte>, len: nat)
      reads this
    {
      InBounds() && |bites| == len && bites[..pos] == written
    }

    method WriteString(s: seq<byte>, ghost written: seq<byte>, ghost len: nat) returns (status: Status)
      requires Filled(written, len) && |s| < 0x1_0000 && |written| + 2 + |s| <= len
      modifies this`pos, this`bites
      ensures status.Fine? && Filled(written + Str(s), len)
    {
      var len_written := WriteUint16(|s|);
      :- len_written;
      :- Write(s);
      assert written + U16(|s|) + s == written + Str(s);
      status := Fine;
    }

    method WriteProperties(properties: seq<byte>, ghost written: seq<byte>, ghost len: nat) returns (status: Status)
      requires Filled(written, len) && |properties| <= MAX_VALUE && |written| + |Encode(|properties|)| + |properties| <= len
      modifies this`pos, this`bites
      ensures status.Fine? && Filled(written + (Encode(|properties|) + properties), len)
    {
      var ok, v := Assign(|properties|);
      :- Write(v);
      :- Write(properties);
      assert written + v + properties == written + (v + properties);
      status := Fine;
    }

    method WriteFront(m: Publish, ghost len: nat) returns (status: Status)
      requires Filled([], len) && |SentTopic(m)| < 0x1_0000 && 2 + |SentTopic(m)| + |PacketId(m.qos, 0)| <= len
      modifies this`pos, this`bites, this`packet_id_pos
      ensures status == Fine && Filled(Str(SentTopic(m)) + PacketId(m.qos, 0), len)
      ensures packet_id_pos == if m.qos > 0 then 2 + |SentTopic(m)| else old(packet_id_pos)
    {
      var topic := if m.skipTopic then [] else m.topic;
      assert [] + Str(topic) == Str(topic) && Str(topic) + [] == Str(topic);
      :- WriteString(topic, [], len);
      if m.qos > 0 {
        // Room for the packet id, which is assigned later.
        packet_id_pos := pos;
        :- Write([0, 0]);
      }
      status := Fine;
    }

    method WritePropertiesIfAny(properties: seq<byte>, ghost written: seq<byte>, ghost len: nat) returns (status: Status)
      requires Filled(written, len) && |properties| <= MAX_VALUE && |written| + |SectionOf(protocolVersion, properties)| <= len
      modifies this`pos, this`bites
      ensures status == Fine && Filled(written + SectionOf(protocolVersion, properties), len)
    {
      assert written + [] == written;
      if protocolVersion >= MQTT_5 {
        :- WriteProperties(properties, written, len);
      }
      status := Fine;
    }

    /** The writes of the PUBLISH constructor fill the bytes exactly. */
    method WritePublish(m: Publish, properties: seq<byte>) returns (status: Status)
      requires Filled([], |BodyOf(m, protocolVersion, 0, properties)|)
      requires |SentTopic(m)| < 0x1_0000 && |properties| <= MAX_VALUE
      modifies this`pos, this`bites, this`packet_id_pos, this`payloadStart, this`payloadLen
      ensures status == Fine && pos == |bites| && bites == BodyOf(m, protocolVersion, 0, properties)
      ensures packet_id_pos == if m.qos > 0 then 2 + |SentTopic(m)| else old(packet_id_pos)
      ensures payloadStart + payloadLen == |bites| && payloadLen == |m.payload|
    {
      ghost var len := |bites|;
      :- WriteFront(m, len);
      :- WritePropertiesIfAny(properties, Str(SentTopic(m)) + PacketId(m.qos, 0), len);
      payloadStart := pos;
      payloadLen := |m.payload|;
      :- Write(m.payload);
      assert bites == bites[..pos];
      status := Fine;
    }

    // ---------- changing a packet ----------

    /** What goes over the wire: an outgoing packet has no room for its fixed header. */
    ghost function Wire(): seq<byte>
      reads this
    {
      if fixed_header_length == 0 then Framed(first_byte, bites) else bites
    }

    method SetPacketId(packet_id: nat)
      requires publishData.qos > 0 && 0 < packet_id_pos && packet_id_pos + 2 <= |bites| && packet_id < 0x1_0000
      modifies this`packet_id, this`pos, this`bites
      ensures this.packet_id == packet_id && bites == Copied(old(bites), packet_id_pos, U16(packet_id))
    {
      this.packet_id := packet_id;
      pos := packet_id_pos;
      var status := WriteUint16(packet_id);
    }

    /** Bits 1 and 2 of the first byte. */
    method SetQos(new_qos: nat)
      requires publishData.qos > 0 && 0 < new_qos <= 2
      requires fixed_header_length > 0 ==> bites != []
      modifies this`publishData, this`first_byte, this`pos, this`bites
      ensures publishData == old(publishData).(qos := new_qos) && first_byte == WithQos(old(first_byte), new_qos)
      ensures bites == if fixed_header_length > 0 then old(bites)[0 := first_byte] else old(bites)
    {
      publishData := publishData.(qos := new_qos);
      first_byte := first_byte - 2 * (first_byte / 2 % 4);
      first_byte := first_byte + 2 * publishData.qos;
      if fixed_header_length > 0 {
        pos := 0;
        var status := WriteByte(first_byte);
      }
    }

    /** Bit 0 of the first byte. */
    method SetRetain(val: bool)
      requires fixed_header_length > 0 ==> bites != []
      modifies this`first_byte, this`pos, this`bites
      ensures first_byte == WithRetain(old(first_byte), val)
      ensures bites == if fixed_header_length > 0 then old(bites)[0 := first_byte] else old(bites)
    {
      first_byte := first_byte - first_byte % 2;
      first_byte := first_byte + (if val then 1 else 0);
      if fixed_header_length > 0 {
        pos := 0;
        var status := WriteByte(first_byte);
      }
    }

    /** What MqttPacket::handlePublish does to the duplicate flag before anyone is sent the packet. */
    method ClearDuplicate()
      requires bites != []
      modifies this`bites, this`first_byte
      ensures first_byte == WithoutDuplicate(old(bites)[0]) && bites == old(bites)[0 := first_byte]
    {
      bites := bites[0 := bites[0] - 8 * (bites[0] / 8 % 2)];
      first_byte := bites[0];
    }

    method GetPublishData() returns (m: Publish)
      requires payloadStart + payloadLen == |bites|
      modifies this`publishData
      ensures m == publishData
      ensures m == old(publishData).(payload := if old(publishData).payload == [] then bites[payloadStart..] else old(publishData).payload)
    {
      if payloadLen > 0 && publishData.payload == [] {
        publishData := publishData.(payload := bites[payloadStart..payloadStart + payloadLen]);
      }
      m := publishData;
    }

    /** The bytes MqttPacket::readIntoBuf writes. */
    method Serialized() returns (w: seq<byte>)
      requires |bites| <= MAX_VALUE
      ensures w == Wire()
    {
      w := bites;
      if fixed_header_length == 0 {
        var ok, remainingLength := Assign(|bites|);
        w := [first_byte] + remainingLength + bites;
      }
    }

    /** MqttPacket::readIntoBuf into a buffer that has room. */
    method ReadIntoBuf(buf: CirBuf)
      requires buf.Valid() && |Wire()| <= buf.FreeSpace() && |bites| <= MAX_VALUE
      requires fixed_header_length > 0 ==> bites != [] && bites[0] == first_byte
      modifies buf, buf.buf
      ensures buf.Valid() && buf.Contents() == old(buf.Contents()) + old(Wire())
    {
      ghost var rounds, before := 0, buf.Contents();
      if fixed_header_length == 0 {
        rounds := buf.WriteFitting([first_byte]);
        var ok, remainingLength := Assign(|bites|);
        rounds := buf.WriteFitting(remainingLength);
      }
      rounds := buf.WriteFitting(bites);
      Assoc(before, [first_byte], Encode(|bites|), bites);
    }
  }

  /** The publish data an outgoing packet keeps: no payload, and before MQTT 5 no properties. */
  function PacketData(m: Publish, version: nat): Publish {
    if version >= MQTT_5 then m.(topic := SentTopic(m), payload := [])
    else EmptyPublish(SentTopic(m), m.qos, m.retain).(topicAlias := m.topicAlias, skipTopic := m.skipTopic)
  }

  function WithQos(first: byte, qos: nat): byte
    requires qos <= 3
  {
    first - 2 * (first / 2 % 4) + 2 * qos
  }

  function WithRetain(first: byte, retain: bool): byte {
    first - first % 2 + if retain then 1 else 0
  }

  function WithoutDuplicate(first: byte): byte {
    first - 8 * (first / 8 % 2)
  }

  lemma Assoc(a: seq<byte>, b: seq<byte>, c: seq<byte>, d: seq<byte>)
    ensures a + b + c + d == a + (b + c + d)
  {
  }

  /** The publish as it is sent to one subscriber. */
  function Override(m: Publish, qos: nat, topicAlias: nat, skipTopic: bool, subscriptionIdentifier: nat, topicOverride: Option<seq<byte>>): Publish {
    m.(qos := qos, topicAlias := topicAlias, skipTopic := skipTopic, subscriptionIdentifier := subscriptionIdentifier,
       topic := topicOverride.GetOr(m.topic))
  }

  /** What the constructor for a PUBLISH throws. */
  function BuildStatus(m: Publish, version: nat): Status {
    if |SentTopic(m)| > 0xFFFF then Thrown(ProtocolViolation)
    else if version >= MQTT_5 && AllStatus(PropertiesOf(m), 0).Thrown? then AllStatus(PropertiesOf(m), 0)
    else if version >= MQTT_5 && |AllWritten(PropertiesOf(m))| > MAX_VALUE then Thrown(NumberTooBig)
    else if |Body(m, version, 0)| > MAX_VALUE then Thrown(NumberTooBig)
    else Fine
  }

  /** A packet straight from the constructor. */
  ghost predicate Built(p: MqttPacket, m: Publish, version: nat)
    requires m.qos <= 2
    reads p
  {
    && p.protocolVersion == version && p.fixed_header_length == 0 && p.packet_id == 0
    && p.bites == Body(m, version, 0) && p.first_byte == FirstByte(m.qos, m.retain)
    && p.publishData == PacketData(m, version)
    && p.packet_id_pos == (if m.qos > 0 then 2 + |SentTopic(m)| else 0)
  }

  method PropertyBytes(m: Publish, version: nat) returns (status: Status, properties: seq<byte>)
    requires (m.expire.Some? ==> m.expire.value < UINT32_VALUES) && m.topicAlias < 0x1_0000
    ensures version < MQTT_5 ==> status.Fine? && properties == []
    ensures version >= MQTT_5 ==> status == if AllStatus(PropertiesOf(m), 0).Thrown? then AllStatus(PropertiesOf(m), 0)
                                            else if |AllWritten(PropertiesOf(m))| > MAX_VALUE then Thrown(NumberTooBig) else Fine
    ensures version >= MQTT_5 && status.Fine? ==> properties == AllWritten(PropertiesOf(m))
  {
    properties := [];
    if version < MQTT_5 {
      return Fine, [];
    }
    var builder := new Mqtt5PropertyBuilder();
    status := builder.WriteAll(m);
    if status.Fine? {
      properties := builder.bytes;
      if |properties| > MAX_VALUE {
        status := Thrown(NumberTooBig);
      }
    }
  }

  /** The constructor for a PUBLISH: the length is computed first, and what is written fills it exactly. */
  method Build(protocolVersion: nat, m: Publish, qos: nat, topicAlias: nat, skipTopic: bool, subscriptionIdentifier: nat,
               topicOverride: Option<seq<byte>>) returns (r: Result<MqttPacket>)
    requires qos <= 2 && (m.expire.Some? ==> m.expire.value < UINT32_VALUES) && topicAlias < 0x1_0000
    ensures var m' := Override(m, qos, topicAlias, skipTopic, subscriptionIdentifier, topicOverride);
      match BuildStatus(m', protocolVersion)
      case Fine => r.Ok? && fresh(r.value) && Built(r.value, m', protocolVersion)
      case Thrown(error) => r == Err(error)
    ensures r.Ok? ==>
      && r.value.publishData.topic == (if skipTopic then [] else if topicOverride.Some? then topicOverride.value else m.topic)
      && r.value.publishData.qos == qos && r.value.publishData.topicAlias == topicAlias && r.value.publishData.skipTopic == skipTopic
      && r.value.publishData.subscriptionIdentifier == (if protocolVersion >= MQTT_5 then subscriptionIdentifier else 0)
  {
    var m' := m.(qos := qos, topicAlias := topicAlias, skipTopic := skipTopic, subscriptionIdentifier := subscriptionIdentifier);
    if topicOverride.Some? {
      m' := m'.(topic := topicOverride.value);
    }
    r := BuildPacket(protocolVersion, m');
  }

  /** The constructor, when what it overrides has been set. */
  method BuildPacket(protocolVersion: nat, m: Publish) returns (r: Result<MqttPacket>)
    requires m.qos <= 2 && (m.expire.Some? ==> m.expire.value < UINT32_VALUES) && m.topicAlias < 0x1_0000
    ensures match BuildStatus(m, protocolVersion)
      case Fine => r.Ok? && fresh(r.value) && Built(r.value, m, protocolVersion)
      case Thrown(error) => r == Err(error)
  {
    var topicLength := if m.skipTopic then 0 else |m.topic|;
    if topicLength > 0xFFFF {
      return Err(ProtocolViolation);
    }
    var status, properties := PropertyBytes(m, protocolVersion);
    if status.Thrown? {
      return Err(status.error);
    }
    var p := Allocate(protocolVersion, m, properties);
    status := p.WritePublish(m, properties);
    if |p.bites| > MAX_VALUE {
      return Err(NumberTooBig);
    }
    r := Ok(p);
  }

  /** The length that is computed before writing is the length of what is written. */
  method Allocate(protocolVersion: nat, m: Publish, properties: seq<byte>) returns (p: MqttPacket)
    requires |properties| <= MAX_VALUE && m.qos <= 2
    ensures fresh(p) && p.Filled([], |BodyOf(m, protocolVersion, 0, properties)|)
    ensures p.protocolVersion == protocolVersion && p.fixed_header_length == 0 && p.packet_id == 0 && p.packet_id_pos == 0
    ensures p.first_byte == FirstByte(m.qos, m.retain) && p.publishData == PacketData(m, protocolVersion)
  {
    var len := 2;
    if !m.skipTopic {
      len := len + |m.topic|;
    }
    len := len + |m.payload|;
    if m.qos > 0 {
      len := len + 2;
    }
    if protocolVersion >= MQTT_5 {
      var ok, proplen := Assign(|properties|);
      len := len + |proplen| + |properties|;
    }
    p := new MqttPacket.Outgoing(protocolVersion, m, len);
  }

  /** Where the packet id is: after the length of the topic and the topic. */
  function IdPos(bites: seq<byte>, header: nat): nat {
    header + 2 + if header + 2 <= |bites| then Word(bites[header], bites[header + 1]) else 0
  }

  lemma FrontEnd(first: byte, data: seq<byte>, reader: Reader)
    ensures var r := ReadFront(first, data, reader);
      r.Got? ==> |data| >= 2 && |r.value.0| == Word(data[0], data[1])
  {
  }

  lemma PropertiesStep(s: seq<byte>, after: int, f: Reading, reader: Reader)
    requires |s| > after
    ensures var r := ReadProperty(s, f, reader);
      && (r.Got? ==> |r.rest| < |s| && ReadProperties(s, after, f, reader) == ReadProperties(r.rest, after, r.value, reader))
      && (r.Fail? ==> ReadProperties(s, after, f, reader) == r)
  {
  }

  const MULTIPLIER_LIMIT: nat := 128 * 128 * 128 * 128

  /** One round of the loop over a variable byte integer. */
  lemma VarIntRound(s: seq<byte>, k: nat, value: nat, multiplier: nat)
    requires k <= 4 && k < |s| && multiplier == Pow128(k) && Decode(s, 0) == Later(Decode(s, k), value)
    ensures var low := value + (s[k] % 128) * multiplier;
      if k == 4 then multiplier * 128 > MULTIPLIER_LIMIT && Decode(s, 0) == Malformed
      else
        && multiplier * 128 == Pow128(k + 1) && multiplier * 128 <= MULTIPLIER_LIMIT
        && Decode(s, 0) == if s[k] < 128 then Value(low, k + 1) else Later(Decode(s, k + 1), low)
    ensures (s[k] % 128) * multiplier >= 0
  {
  }
}
