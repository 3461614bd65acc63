/** Mqtt5PropertyBuilder: the bytes of a property list, written one property at a time. */
module PropertyBuilders {
  import opened Bits
  import opened Options
  import opened VariableByteInts
  import opened PublishFormat

  /** How a call ends: normally, or with the exception thrown. */
  datatype Status = Fine | Thrown(error: Error) {
    predicate IsFailure() {
      Thrown?
    }

    function PropagateFailure(): Status {
      this
    }
  }


  /** What writing a property throws, when `count` user properties were written before. */
  function WriteStatus(p: Property, count: nat): Status {
    match p
    case PayloadFormat(_) => Fine
    case MessageExpiry(_) => Fine
    case ContentType(text) => if |text| > 0xFFFF then Thrown(MalformedPacket) else Fine
    case ResponseTopic(topic) => if |topic| > 0xFFFF then Thrown(MalformedPacket) else Fine
    case CorrelationData(data) => if |data| > 0xFFFF then Thrown(MalformedPacket) else Fine
    case SubscriptionIdentifier(id) => if id > MAX_VALUE then Thrown(NumberTooBig) else Fine
    case TopicAlias(_) => Fine
    case User(property) =>
      if count > 50 then Thrown(TooManyUserProperties)
      else if |property.key| > 0xFFFF || |property.value| > 0xFFFF then Thrown(MalformedPacket)
      else Fine
  }

  /** The first exception from writing them all. */
  function AllStatus(ps: seq<Property>, count: nat): Status {
    if ps == [] then Fine
    else if WriteStatus(ps[0], count).Thrown? then WriteStatus(ps[0], count)
    else AllStatus(ps[1..], if ps[0].User? then count + 1 else count)
  }

  /** Resizing a vector: the new places are zero. */
  function Resized(bytes: seq<byte>, size: nat): (r: seq<byte>)
    requires size >= |bytes|
    ensures |r| == size && r[..|bytes|] == bytes
  {
    bytes + seq(size - |bytes|, _ => 0)
  }

  /** memcpy of `s` to position `pos`. */
  function Copied(bytes: seq<byte>, pos: nat, s: seq<byte>): (r: seq<byte>)
    requires pos + |s| <= |bytes|
    ensures |r| == |bytes|
  {
    bytes[..pos] + s + bytes[pos + |s|..]
  }

  class Mqtt5PropertyBuilder {
    var bytes: seq<byte>
    var userPropertyCount: nat

    constructor ()
      ensures bytes == [] && userPropertyCount == 0
    {
      bytes, userPropertyCount := [], 0;
    }

    method WriteUint32(prop: byte, x: nat)
      requires x < UINT32_VALUES
      modifies this`bytes
      ensures bytes == old(bytes) + ([prop] + U32(x))
    {
      var b := bytes;
      var pos := |b|;
      b := Resized(b, pos + 5);
      b := b[pos := prop];
      b := b[pos + 1 := x / 0x100_0000];
      b := b[pos + 2 := x / 0x1_0000 % 256];
      b := b[pos + 3 := x / 256 % 256];
      b := b[pos + 4 := x % 256];
      Shifts(x);
      assert b == bytes + ([prop] + U32(x));
      bytes := b;
    }

    method WriteUint16(prop: byte, x: nat)
      requires x < 0x1_0000
      modifies this`bytes
      ensures bytes == old(bytes) + ([prop] + U16(x))
    {
      var b := bytes;
      var pos := |b|;
      b := Resized(b, pos + 3);
      b := b[pos := prop];
      b := b[pos + 1 := x / 256];
      b := b[pos + 2 := x % 256];
      assert b == bytes + ([prop] + U16(x));
      bytes := b;
    }

    method WriteUint8(prop: byte, x: byte)
      modifies this`bytes
      ensures bytes == old(bytes) + [prop, x]
    {
      var b := bytes;
      var pos := |b|;
      b := Resized(b, pos + 2);
      b := b[pos := prop];
      b := b[pos + 1 := x];
      assert b == bytes + [prop, x];
      bytes := b;
    }

    method WriteStr(prop: byte, str: seq<byte>) returns (status: Status)
      modifies this`bytes
      ensures status == if |str| > 0xFFFF then Thrown(MalformedPacket) else Fine
      ensures status.Fine? ==> bytes == old(bytes) + ([prop] + Str(str))
    {
      if |str| > 65535 {
        return Thrown(MalformedPacket);
      }
      var b := bytes;
      var strlen, pos := |str|, |b|;
      b := Resized(b, pos + strlen + 3);
      b := b[pos := prop];
      b := b[pos + 1 := strlen / 256];
      b := b[pos + 2 := strlen % 256];
      b := Copied(b, pos + 3, str);
      assert b == bytes + ([prop] + Str(str));
      bytes := b;
      status := Fine;
    }

    method Write2Str(prop: byte, one: seq<byte>, two: seq<byte>) returns (status: Status)
      modifies this`bytes
      ensures status == if |one| > 0xFFFF || |two| > 0xFFFF then Thrown(MalformedPacket) else Fine
      ensures status.Fine? ==> bytes == old(bytes) + ([prop] + (Str(one) + Str(two)))
    {
      var b := bytes;
      var pos := |b|;
      b := Resized(b, pos + |one| + |two| + 5);
      b := b[pos := prop];
      pos := pos + 1;
      if |one| > 0xFFFF {
        return Thrown(MalformedPacket);
      }
      b := Copied(b, pos, Str(one));
      pos := pos + 2 + |one|;
      if |two| > 0xFFFF {
        return Thrown(MalformedPacket);
      }
      b := Copied(b, pos, Str(two));
      assert b == bytes + ([prop] + (Str(one) + Str(two)));
      bytes := b;
      status := Fine;
    }

    method WriteVariableByteInt(prop: byte, val: nat) returns (status: Status)
      modifies this`bytes
      ensures status == if val > MAX_VALUE then Thrown(NumberTooBig) else Fine
      ensures status.Fine? ==> bytes == old(bytes) + ([prop] + Encode(val))
    {
      var ok, x := Assign(val);
      if !ok {
        return Thrown(NumberTooBig);
      }
      var b := bytes;
      var pos := |b|;
      b := Resized(b, pos + |x| + 1);
      b := b[pos := prop];
      b := Copied(b, pos + 1, x);
      assert b == bytes + ([prop] + x);
      bytes := b;
      status := Fine;
    }

    method WriteMessageExpiryInterval(val: nat)
      requires val < UINT32_VALUES
      modifies this`bytes
      ensures bytes == old(bytes) + Written(MessageExpiry(val))
    {
      WriteUint32(MESSAGE_EXPIRY, val);
    }

    method WriteCorrelationData(data: seq<byte>) returns (status: Status)
      modifies this`bytes
      ensures status == WriteStatus(CorrelationData(data), 0)
      ensures status.Fine? ==> bytes == old(bytes) + Written(CorrelationData(data))
    {
      status := WriteStr(CORRELATION_DATA, data);
    }

    method WriteResponseTopic(str: seq<byte>) returns (status: Status)
      modifies this`bytes
      ensures status == WriteStatus(ResponseTopic(str), 0)
      ensures status.Fine? ==> bytes == old(bytes) + Written(ResponseTopic(str))
    {
      status := WriteStr(RESPONSE_TOPIC, str);
    }

    method WriteContentType(format: seq<byte>) returns (status: Status)
      modifies this`bytes
      ensures status == WriteStatus(ContentType(format), 0)
      ensures status.Fine? ==> bytes == old(bytes) + Written(ContentType(format))
    {
      status := WriteStr(CONTENT_TYPE, format);
    }

    method WritePayloadFormatIndicator(val: byte)
      modifies this`bytes
      ensures bytes == old(bytes) + Written(PayloadFormat(val))
    {
      WriteUint8(PAYLOAD_FORMAT, val);
    }

    method WriteTopicAlias(id: nat)
      requires id < 0x1_0000
      modifies this`bytes
      ensures bytes == old(bytes) + Written(TopicAlias(id))
    {
      WriteUint16(TOPIC_ALIAS, id);
    }

    method WriteSubscriptionIdentifier(val: nat) returns (status: Status)
      modifies this`bytes
      ensures status == WriteStatus(SubscriptionIdentifier(val), 0)
      ensures status.Fine? ==> bytes == old(bytes) + Written(SubscriptionIdentifier(val))
    {
      status := WriteVariableByteInt(SUBSCRIPTION_IDENTIFIER, val);
    }

    method WriteUserProperty(p: UserProperty) returns (status: Status)
      modifies this
      ensures userPropertyCount == old(userPropertyCount) + 1
      ensures status == WriteStatus(User(p), old(userPropertyCount))
      ensures status.Fine? ==> bytes == old(bytes) + Written(User(p))
    {
      userPropertyCount := userPropertyCount + 1;
      if userPropertyCount - 1 > 50 {
        return Thrown(TooManyUserProperties);
      }
      status := Write2Str(USER_PROPERTY, p.key, p.value);
    }

    method WriteUserProperties(properties: seq<UserProperty>) returns (status: Status)
      modifies this
      ensures status == AllStatus(UserList(properties), old(userPropertyCount))
      ensures status.Fine? ==> bytes == old(bytes) + AllWritten(UserList(properties))
    {
      ghost var all, total, count := bytes + AllWritten(UserList(properties)), AllStatus(UserList(properties), userPropertyCount), userPropertyCount;
      assert properties[0..] == properties;
      for i := 0 to |properties|
        invariant userPropertyCount == count + i
        invariant UsersAhead(all, total, bytes, properties, i, count)
      {
        UserStep(all, total, bytes, properties, i, count);
        :- WriteUserProperty(properties[i]);
      }
      assert bytes + AllWritten(UserList(properties[|properties|..])) == bytes;
      status := Fine;
    }

    /** One `if` of Publish::getPropertyBuilder; `all` are the bytes to get to and `total` the exception, if any. */
    method WriteIfPresent(m: Publish, slot: Slot, ghost slots: seq<Slot>, ghost all: seq<byte>, ghost total: Status) returns (status: Status)
      requires (m.expire.Some? ==> m.expire.value < UINT32_VALUES) && m.topicAlias < 0x1_0000
      requires slots != [] && slots[0] == slot && Ahead(all, total, bytes, m, slots)
      modifies this`bytes
      ensures if status.Thrown? then total == status else Ahead(all, total, bytes, m, slots[1..])
    {
      Step(all, total, bytes, m, slots);
      status := Fine;
      if !Has(m, slot) {
        return;
      }
      match slot
      case Expiry => WriteMessageExpiryInterval(m.expire.value);
      case Correlation => :- WriteCorrelationData(m.correlationData.value);
      case Response => :- WriteResponseTopic(m.responseTopic.value);
      case Content => :- WriteContentType(m.contentType.value);
      case Format => WritePayloadFormatIndicator(1);
      case Alias => WriteTopicAlias(m.topicAlias);
      case Subscription => :- WriteSubscriptionIdentifier(m.subscriptionIdentifier);
    }

    /** Publish::getPropertyBuilder, as far as the properties that occur once. */
    method WriteSingles(m: Publish) returns (status: Status)
      requires bytes == [] && (m.expire.Some? ==> m.expire.value < UINT32_VALUES) && m.topicAlias < 0x1_0000
      modifies this`bytes
      ensures match status
              case Fine => Ahead(AllWritten(PropertiesOf(m)), AllStatus(PropertiesOf(m), 0), bytes, m, [])
              case Thrown(e) => AllStatus(PropertiesOf(m), 0) == Thrown(e)
    {
      ghost var all, total := AllWritten(PropertiesOf(m)), AllStatus(PropertiesOf(m), 0);
      AheadStart(m);
      :- WriteIfPresent(m, Expiry, SLOTS, all, total);
      :- WriteIfPresent(m, Correlation, SLOTS[1..], all, total);
      :- WriteIfPresent(m, Response, SLOTS[2..], all, total);
      :- WriteIfPresent(m, Content, SLOTS[3..], all, total);
      :- WriteIfPresent(m, Format, SLOTS[4..], all, total);
      :- WriteIfPresent(m, Alias, SLOTS[5..], all, total);
      status := WriteIfPresent(m, Subscription, SLOTS[6..], all, total);
    }

    /** Publish::getPropertyBuilder on a new builder. */
    method WriteAll(m: Publish) returns (status: Status)
      requires bytes == [] && userPropertyCount == 0
      requires (m.expire.Some? ==> m.expire.value < UINT32_VALUES) && m.topicAlias < 0x1_0000
      modifies this
      ensures status == AllStatus(PropertiesOf(m), 0)
      ensures status.Fine? ==> bytes == AllWritten(PropertiesOf(m))
    {
      status := WriteSingles(m);
      if status.Fine? {
        status := WriteUserProperties(m.userProperties);
      }
    }
  }

  lemma Shifts(x: nat)
    requires x < UINT32_VALUES
    ensures [x / 0x100_0000, x / 0x1_0000 % 256, x / 256 % 256, x % 256] == U32(x)
  {
    var hi, lo := x / 0x1_0000, x % 0x1_0000;
    assert x == 0x1_0000 * hi + lo;
    assert x / 0x100_0000 == hi / 256;
    assert x / 256 == 256 * hi + lo / 256;
    assert x % 256 == lo % 256;
  }

  /** To write `all`, or to throw `total`, there remain the properties from the i-th on to be written after `b`. */
  ghost predicate UsersAhead(all: seq<byte>, total: Status, b: seq<byte>, users: seq<UserProperty>, i: nat, count: nat) {
    i <= |users| && all == b + AllWritten(UserList(users[i..])) && total == AllStatus(UserList(users[i..]), count + i)
  }

  lemma UserStep(all: seq<byte>, total: Status, b: seq<byte>, users: seq<UserProperty>, i: nat, count: nat)
    requires UsersAhead(all, total, b, users, i, count) && i < |users|
    ensures var status := WriteStatus(User(users[i]), count + i);
      if status.Thrown? then total == status else UsersAhead(all, total, b + Written(User(users[i])), users, i + 1, count)
  {
    var p, others := User(users[i]), UserList(users[i + 1..]);
    assert UserList(users[i..]) == [p] + others;
    ConsWritten(p, others, count + i);
    assert b + (Written(p) + AllWritten(others)) == b + Written(p) + AllWritten(others);
  }

  lemma ConsWritten(p: Property, others: seq<Property>, count: nat)
    ensures AllWritten([p] + others) == Written(p) + AllWritten(others)
    ensures var status := WriteStatus(p, count);
      AllStatus([p] + others, count) == if status.Thrown? then status else AllStatus(others, if p.User? then count + 1 else count)
  {
  }

  /** To write `all`, or to throw `total`, there remain `slots` and the user properties to be written after `b`. */
  ghost predicate Ahead(all: seq<byte>, total: Status, b: seq<byte>, m: Publish, slots: seq<Slot>) {
    var others := PropertiesFrom(m, slots);
    all == b + AllWritten(others) && total == AllStatus(others, 0)
  }

  lemma AheadStart(m: Publish)
    ensures Ahead(AllWritten(PropertiesOf(m)), AllStatus(PropertiesOf(m), 0), [], m, SLOTS)
  {
  }

  lemma Step(all: seq<byte>, total: Status, b: seq<byte>, m: Publish, slots: seq<Slot>)
    requires slots != [] && Ahead(all, total, b, m, slots)
    ensures var p := Single(m, slots[0]);
      if !Has(m, slots[0]) then Ahead(all, total, b, m, slots[1..])
      else if WriteStatus(p, 0).Thrown? then total == WriteStatus(p, 0)
      else Ahead(all, total, b + Written(p), m, slots[1..])
  {
    var p, others := Single(m, slots[0]), PropertiesFrom(m, slots[1..]);
    if Has(m, slots[0]) {
      ConsWritten(p, others, 0);
      assert b + (Written(p) + AllWritten(others)) == b + Written(p) + AllWritten(others);
    } else {
      assert [] + others == others;
    }
  }
}
