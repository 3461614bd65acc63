/** What is written for a message is read back as that message. */
module PublishRoundTrip {
  import MqttSplitter
  import opened Bits
  import opened Options
  import opened ProtocolVersions
  import opened VariableByteInts
  import opened PublishFormat

  // ---------- one property ----------

  lemma U16ReadsBack(x: nat, rest: seq<byte>)
    requires x < 0x1_0000
    ensures ReadU16(U16(x) + rest) == Got(x, rest)
  {
  }

  lemma U32ReadsBack(x: nat, rest: seq<byte>)
    requires x < UINT32_VALUES
    ensures ReadU32(U32(x) + rest) == Got(x, rest)
  {
    var hi, lo := x / 0x1_0000, x % 0x1_0000;
    var s := U32(x) + rest;
    assert s == U16(hi) + (U16(lo) + rest);
    U16ReadsBack(hi, U16(lo) + rest);
    U16ReadsBack(lo, rest);
    assert [s[0], s[1]] == U16(hi) && [s[2], s[3]] == U16(lo);
    assert s[4..] == rest;
  }

  lemma VarIntReadsBack(x: nat, rest: seq<byte>)
    requires x <= MAX_VALUE
    ensures ReadVarInt(Encode(x) + rest) == Got(x, rest)
  {
    RoundTrip(x, rest);
    assert (Encode(x) + rest)[|Encode(x)|..] == rest;
  }

  /** Reading a string from what was written gives the string, or says what is wrong with it. */
  function Vet(s: seq<byte>, check: Check, reader: Reader, rest: seq<byte>): Read<seq<byte>> {
    if |s| > reader.maxStringLength then Fail(StringTooLong)
    else if Passes(s, check, reader) then Got(s, rest)
    else Fail(MalformedPacket)
  }

  lemma StrReadsBack(s: seq<byte>, check: Check, reader: Reader, rest: seq<byte>)
    requires |s| < 0x1_0000
    ensures ReadStr(Str(s) + rest, check, reader) == Vet(s, check, reader, rest)
  {
    assert Str(s) + rest == U16(|s|) + (s + rest);
    U16ReadsBack(|s|, s + rest);
    assert (s + rest)[..|s|] == s && (s + rest)[|s|..] == rest;
  }

  /** And what is read as a string is that string as it is written, within the limit and past its check. */
  lemma StrWasWritten(s: seq<byte>, check: Check, reader: Reader)
    ensures var r := ReadStr(s, check, reader);
      r.Got? <==> exists t, rest :: s == Str(t) + rest && |t| < 0x1_0000 && |t| <= reader.maxStringLength && Passes(t, check, reader)
    ensures var r := ReadStr(s, check, reader);
      r.Got? ==> s == Str(r.value) + r.rest
  {
    var r := ReadStr(s, check, reader);
    if r.Got? {
      assert s == Str(r.value) + r.rest && |r.value| < 0x1_0000;
    }
    forall t, rest | s == Str(t) + rest && |t| < 0x1_0000 && |t| <= reader.maxStringLength && Passes(t, check, reader) ensures r.Got? {
      StrReadsBack(t, check, reader, rest);
    }
  }

  /** What a property does to what has been read. */
  function Apply(p: Property, f: Reading, reader: Reader, rest: seq<byte>): Read<Reading> {
    if p.User? then ApplyUser(p.property, f, reader, rest)
    else if Kind(p) in f.pcounts then Fail(ProtocolViolation)
    else ApplySingle(p, f.(pcounts := f.pcounts + {Kind(p)}), reader, rest)
  }

  function ApplyUser(p: UserProperty, f: Reading, reader: Reader, rest: seq<byte>): Read<Reading> {
    var key :- Vet(p.key, Utf8, reader, rest);
    var val :- Vet(p.value, Utf8, reader, rest);
    if |f.publish.userProperties| > 50 then Fail(TooManyUserProperties)
    else Got(f.(publish := f.publish.(userProperties := f.publish.userProperties + [p])), rest)
  }

  function ApplySingle(p: Property, f: Reading, reader: Reader, rest: seq<byte>): Read<Reading>
    requires !p.User?
  {
    match p
    case PayloadFormat(indicator) => Got(f.(publish := f.publish.(payloadUtf8 := indicator != 0)), rest)
    case MessageExpiry(seconds) => Got(f.(publish := f.publish.(expire := Some(seconds))), rest)
    case ContentType(text) =>
      var t :- Vet(text, Utf8, reader, rest);
      Got(f.(publish := f.publish.(contentType := Some(text))), rest)
    case ResponseTopic(topic) =>
      var t :- Vet(topic, Topic, reader, rest);
      if topic == [] then Fail(ProtocolViolation) else Got(f.(publish := f.publish.(responseTopic := Some(topic))), rest)
    case CorrelationData(data) =>
      var d :- Vet(data, Raw, reader, rest);
      Got(f.(publish := f.publish.(correlationData := Some(data))), rest)
    case SubscriptionIdentifier(id) =>
      if TakesIdentifiers(reader) then Got(f.(dontReuseBites := true, subscriptionIdentifier := StoredIdentifier(id, reader)), rest)
      else Fail(ProtocolViolation)
    case TopicAlias(alias) =>
      match UseAlias(f.aliases, reader.maxIncomingTopicAliasValue, alias, f.publish.topic)
      case None => Fail(TopicAliasInvalid)
      case Some(r) => Got(f.(dontReuseBites := true, aliases := r.0, publish := f.publish.(topic := r.1)), rest)
  }

  lemma UserReadsBack(p: UserProperty, f: Reading, reader: Reader, rest: seq<byte>)
    requires Representable(User(p))
    ensures ReadUserProperty(ValueBytes(User(p)) + rest, f, reader) == ApplyUser(p, f, reader, rest)
  {
    assert ValueBytes(User(p)) + rest == Str(p.key) + (Str(p.value) + rest);
    StrReadsBack(p.key, Utf8, reader, Str(p.value) + rest);
    StrReadsBack(p.value, Utf8, reader, rest);
  }

  lemma SingleReadsBack(p: Property, f: Reading, reader: Reader, rest: seq<byte>)
    requires !p.User? && Representable(p)
    ensures ReadSingle(Kind(p), ValueBytes(p) + rest, f, reader) == ApplySingle(p, f, reader, rest)
  {
    match p
    case PayloadFormat(indicator) => assert ([indicator] + rest)[1..] == rest;
    case MessageExpiry(seconds) => U32ReadsBack(seconds, rest);
    case ContentType(text) => StrReadsBack(text, Utf8, reader, rest);
    case ResponseTopic(topic) => StrReadsBack(topic, Topic, reader, rest);
    case CorrelationData(data) => StrReadsBack(data, Raw, reader, rest);
    case SubscriptionIdentifier(id) => VarIntReadsBack(id, rest);
    case TopicAlias(alias) => U16ReadsBack(alias, rest);
  }

  lemma PropertyReadsBack(p: Property, f: Reading, reader: Reader, rest: seq<byte>)
    requires Representable(p)
    ensures ReadProperty(Written(p) + rest, f, reader) == Apply(p, f, reader, rest)
  {
    assert Written(p) + rest == [Kind(p)] + (ValueBytes(p) + rest);
    assert (Written(p) + rest)[1..] == ValueBytes(p) + rest;
    if p.User? {
      UserReadsBack(p.property, f, reader, rest);
    } else if Kind(p) !in f.pcounts {
      SingleReadsBack(p, f.(pcounts := f.pcounts + {Kind(p)}), reader, rest);
    }
  }

  // ---------- a list of properties ----------

  function ApplyAll(ps: seq<Property>, f: Reading, reader: Reader, rest: seq<byte>): Read<Reading> {
    if ps == [] then Got(f, rest)
    else
      var r :- Apply(ps[0], f, reader, rest);
      ApplyAll(ps[1..], r.value, reader, rest)
  }

  lemma ApplyKeepsRest(p: Property, f: Reading, reader: Reader, rest: seq<byte>, rest': seq<byte>)
    ensures match Apply(p, f, reader, rest)
            case Got(f', r) => r == rest && Apply(p, f, reader, rest') == Got(f', rest')
            case Fail(e) => Apply(p, f, reader, rest') == Fail(e)
  {
  }

  /** Any list of properties, also a wrong one, is read with the same outcome as applying them one by one. */
  lemma {:induction false} PropertiesReadBack(ps: seq<Property>, f: Reading, reader: Reader, rest: seq<byte>)
    requires forall p :: p in ps ==> Representable(p)
    ensures ReadProperties(AllWritten(ps) + rest, |rest|, f, reader) == ApplyAll(ps, f, reader, rest)
  {
    if ps == [] {
      assert AllWritten(ps) + rest == rest;
    } else {
      var tail := AllWritten(ps[1..]) + rest;
      assert ps[0] in ps && AllWritten(ps) + rest == Written(ps[0]) + tail;
      PropertyReadsBack(ps[0], f, reader, tail);
      ApplyKeepsRest(ps[0], f, reader, rest, tail);
      var r := Apply(ps[0], f, reader, rest);
      if r.Got? {
        PropertiesReadBack(ps[1..], r.value, reader, rest);
      }
    }
  }

  // ---------- any order ----------

  function Kinds(ps: seq<Property>): set<byte> {
    set p | p in ps && !p.User? :: Kind(p)
  }

  function Users(ps: seq<Property>): seq<UserProperty> {
    if ps == [] then [] else (if ps[0].User? then [ps[0].property] else []) + Users(ps[1..])
  }

  /** The property says what the message says. */
  predicate Says(p: Property, m: Publish) {
    match p
    case PayloadFormat(indicator) => m.payloadUtf8 == (indicator != 0)
    case MessageExpiry(seconds) => m.expire == Some(seconds)
    case ContentType(text) => m.contentType == Some(text)
    case ResponseTopic(topic) => m.responseTopic == Some(topic)
    case CorrelationData(data) => m.correlationData == Some(data)
    case SubscriptionIdentifier(id) => m.subscriptionIdentifier == id
    case TopicAlias(alias) => m.topicAlias == alias
    case User(_) => true
  }

  predicate SinglesOnce(ps: seq<Property>)
  {
    ps == [] || ((ps[0].User? || Kind(ps[0]) !in Kinds(ps[1..])) && SinglesOnce(ps[1..]))
  }

  /** The list describes the message: what it says is true, nothing is said twice, nothing is left out. */
  predicate Describes(ps: seq<Property>, m: Publish) {
    && (forall p :: p in ps ==> Says(p, m))
    && SinglesOnce(ps) && Users(ps) == m.userProperties
    && (m.payloadUtf8 ==> PAYLOAD_FORMAT in Kinds(ps))
    && (m.expire.Some? ==> MESSAGE_EXPIRY in Kinds(ps))
    && (m.contentType.Some? ==> CONTENT_TYPE in Kinds(ps))
    && (m.responseTopic.Some? ==> RESPONSE_TOPIC in Kinds(ps))
    && (m.correlationData.Some? ==> CORRELATION_DATA in Kinds(ps))
    && (m.subscriptionIdentifier > 0 ==> SUBSCRIPTION_IDENTIFIER in Kinds(ps))
    && (m.topicAlias > 0 <==> TOPIC_ALIAS in Kinds(ps))
  }

  predicate StringOk(s: seq<byte>, check: Check, reader: Reader) {
    |s| <= reader.maxStringLength && |s| < 0x1_0000 && Passes(s, check, reader)
  }

  predicate OptionOk(s: Option<seq<byte>>, check: Check, reader: Reader) {
    s.None? || StringOk(s.value, check, reader)
  }

  predicate UsersOk(users: seq<UserProperty>, reader: Reader) {
    |users| <= MAX_USER_PROPERTIES
    && forall u :: u in users ==> StringOk(u.key, Utf8, reader) && StringOk(u.value, Utf8, reader)
  }

  /** What the reader's alias rules give for the topic of `m`. */
  predicate AliasOk(m: Publish, reader: Reader, aliases: Aliases) {
    if m.topicAlias == 0 then !m.skipTopic
    else UseAlias(aliases, reader.maxIncomingTopicAliasValue, m.topicAlias, SentTopic(m)).Some?
  }

  function ReadTopic(m: Publish, reader: Reader, aliases: Aliases): seq<byte>
    requires AliasOk(m, reader, aliases)
  {
    if m.topicAlias == 0 then m.topic
    else UseAlias(aliases, reader.maxIncomingTopicAliasValue, m.topicAlias, SentTopic(m)).value.1
  }

  function ReadAliases(m: Publish, reader: Reader, aliases: Aliases): map<nat, seq<byte>>
    requires AliasOk(m, reader, aliases)
  {
    if m.topicAlias == 0 then aliases
    else UseAlias(aliases, reader.maxIncomingTopicAliasValue, m.topicAlias, SentTopic(m)).value.0
  }

  predicate PropertiesOk(m: Publish, reader: Reader) {
    && m.topicAlias < 0x1_0000 && m.subscriptionIdentifier <= MAX_VALUE
    && (m.subscriptionIdentifier > 0 ==> TakesIdentifiers(reader))
    && (m.expire.Some? ==> m.expire.value < UINT32_VALUES)
    && OptionOk(m.contentType, Utf8, reader) && OptionOk(m.correlationData, Raw, reader)
    && OptionOk(m.responseTopic, Topic, reader) && m.responseTopic != Some([])
    && UsersOk(m.userProperties, reader)
  }

  /** The message within the limits of its reader. */
  predicate InLimits(m: Publish, reader: Reader, aliases: Aliases) {
    && StringOk(SentTopic(m), Topic, reader) && m.qos <= 2
    && AliasOk(m, reader, aliases) && ReadTopic(m, reader, aliases) != []
    && PropertiesOk(m, reader)
    && (m.payloadUtf8 ==> reader.isValidUtf8(m.payload, false))
  }

  /** What has been read when the properties of kinds `seen` and the first user properties have been. */
  function Partly(m: Publish, seen: set<byte>, users: seq<UserProperty>, reader: Reader, aliases: Aliases): Reading
    requires AliasOk(m, reader, aliases)
  {
    var p := EmptyPublish(if TOPIC_ALIAS in seen then ReadTopic(m, reader, aliases) else SentTopic(m), 0, false).(
      payloadUtf8 := PAYLOAD_FORMAT in seen && m.payloadUtf8,
      expire := if MESSAGE_EXPIRY in seen then m.expire else None,
      contentType := if CONTENT_TYPE in seen then m.contentType else None,
      responseTopic := if RESPONSE_TOPIC in seen then m.responseTopic else None,
      correlationData := if CORRELATION_DATA in seen then m.correlationData else None,
      userProperties := users);
    Reading(seen, p,
            if TOPIC_ALIAS in seen then ReadAliases(m, reader, aliases) else aliases,
            if SUBSCRIPTION_IDENTIFIER in seen then StoredIdentifier(m.subscriptionIdentifier, reader) else 0,
            SUBSCRIPTION_IDENTIFIER in seen || TOPIC_ALIAS in seen)
  }

  lemma PartlyNext(p: Property, m: Publish, seen: set<byte>, users: seq<UserProperty>, reader: Reader, aliases: Aliases, rest: seq<byte>)
    requires AliasOk(m, reader, aliases) && PropertiesOk(m, reader) && Says(p, m)
    requires p.SubscriptionIdentifier? ==> TakesIdentifiers(reader)
    requires p.TopicAlias? ==> m.topicAlias > 0
    requires !p.User? && Kind(p) !in seen
    ensures Apply(p, Partly(m, seen, users, reader, aliases), reader, rest) == Got(Partly(m, seen + {Kind(p)}, users, reader, aliases), rest)
  {
  }

  lemma {:induction false} AllApply(ps: seq<Property>, m: Publish, seen: set<byte>, users: seq<UserProperty>, reader: Reader, aliases: Aliases, rest: seq<byte>)
    requires AliasOk(m, reader, aliases) && PropertiesOk(m, reader) && UsersOk(users + Users(ps), reader)
    requires forall p :: p in ps ==> Says(p, m)
    requires SUBSCRIPTION_IDENTIFIER in Kinds(ps) ==> TakesIdentifiers(reader)
    requires TOPIC_ALIAS in Kinds(ps) ==> m.topicAlias > 0
    requires SinglesOnce(ps) && Kinds(ps) !! seen
    ensures ApplyAll(ps, Partly(m, seen, users, reader, aliases), reader, rest)
         == Got(Partly(m, seen + Kinds(ps), users + Users(ps), reader, aliases), rest)
  {
    if ps == [] {
      assert seen + Kinds(ps) == seen && users + Users(ps) == users;
    } else {
      var p, tail := ps[0], ps[1..];
      assert p in ps && forall q :: q in tail ==> q in ps;
      assert ps == [p] + tail;
      if p.User? {
        assert Kinds(ps) == Kinds(tail);
        assert users + Users(ps) == users + [p.property] + Users(tail);
        UserNext(p.property, m, seen, users, Users(tail), reader, aliases, rest);
        AllApply(tail, m, seen, users + [p.property], reader, aliases, rest);
      } else {
        assert Kinds(ps) == {Kind(p)} + Kinds(tail);
        assert users + Users(ps) == users + Users(tail);
        PartlyNext(p, m, seen, users, reader, aliases, rest);
        AllApply(tail, m, seen + {Kind(p)}, users, reader, aliases, rest);
        assert seen + {Kind(p)} + Kinds(tail) == seen + Kinds(ps);
      }
    }
  }

  lemma UserNext(u: UserProperty, m: Publish, seen: set<byte>, users: seq<UserProperty>, more: seq<UserProperty>, reader: Reader, aliases: Aliases, rest: seq<byte>)
    requires AliasOk(m, reader, aliases) && UsersOk(users + [u] + more, reader)
    ensures Apply(User(u), Partly(m, seen, users, reader, aliases), reader, rest) == Got(Partly(m, seen, users + [u], reader, aliases), rest)
  {
  }

  // ---------- a whole message ----------

  /** Earlier versions of the protocol have no properties. */
  function ForVersion(m: Publish, version: nat): Publish {
    if version >= MQTT_5 then m
    else m.(topicAlias := 0, payloadUtf8 := false, expire := None, correlationData := None, responseTopic := None,
            contentType := None, subscriptionIdentifier := 0, userProperties := [])
  }

  /** The receiver got the message, under the topic its alias stands for, and knows the aliases it set. */
  predicate Received(r: Read<Parsed>, m: Publish, id: nat, reader: Reader, aliases: Aliases)
    requires AliasOk(m, reader, aliases)
  {
    && r.Got? && r.value.packetId == (if m.qos == 0 then 0 else id)
    && r.value.reading.publish == m.(topic := ReadTopic(m, reader, aliases), topicAlias := 0, skipTopic := false, subscriptionIdentifier := 0)
    && r.value.reading.subscriptionIdentifier == StoredIdentifier(m.subscriptionIdentifier, reader)
    && r.value.reading.aliases == ReadAliases(m, reader, aliases)
  }

  lemma FirstByteReadsBack(qos: nat, retain: bool)
    requires qos <= 2
    ensures var first := FirstByte(qos, retain);
      (first % 2 == 1) == retain && first / 8 % 2 == 0 && first / 2 % 4 == qos
  {
  }

  lemma DescribedIsPartly(m: Publish, ps: seq<Property>, reader: Reader, aliases: Aliases)
    requires Describes(ps, m) && AliasOk(m, reader, aliases)
    requires SUBSCRIPTION_IDENTIFIER in Kinds(ps) ==> TakesIdentifiers(reader)
    ensures var f := Partly(m, Kinds(ps), m.userProperties, reader, aliases);
      && f.publish.(qos := m.qos, retain := m.retain, payload := m.payload)
         == m.(topic := ReadTopic(m, reader, aliases), topicAlias := 0, skipTopic := false, subscriptionIdentifier := 0)
      && f.subscriptionIdentifier == StoredIdentifier(m.subscriptionIdentifier, reader) && f.aliases == ReadAliases(m, reader, aliases)
  {
  }

  lemma SectionReadsBack(m: Publish, version: nat, ps: seq<Property>, reader: Reader, aliases: Aliases, payload: seq<byte>)
    requires forall p :: p in ps ==> Representable(p)
    requires version >= MQTT_5 && |AllWritten(ps)| <= MAX_VALUE
    requires Describes(ps, m) && AliasOk(m, reader, aliases) && PropertiesOk(m, reader)
    requires SUBSCRIPTION_IDENTIFIER in Kinds(ps) ==> TakesIdentifiers(reader)
    ensures ReadPropertySection(PropertySection(version, ps) + payload, Start(SentTopic(m), aliases), version, reader)
         == Got(Partly(m, Kinds(ps), m.userProperties, reader, aliases), payload)
  {
    var written := AllWritten(ps);
    assert PropertySection(version, ps) + payload == Encode(|written|) + (written + payload);
    VarIntReadsBack(|written|, written + payload);
    assert Start(SentTopic(m), aliases) == Partly(m, {}, [], reader, aliases);
    PropertiesReadBack(ps, Partly(m, {}, [], reader, aliases), reader, payload);
    assert [] + Users(ps) == m.userProperties;
    AllApply(ps, m, {}, [], reader, aliases, payload);
    assert {} + Kinds(ps) == Kinds(ps);
  }

  lemma PacketIdReadsBack(qos: nat, id: nat, rest: seq<byte>)
    requires qos > 0 ==> 0 < id < 0x1_0000
    ensures ReadPacketId(PacketId(qos, id) + rest, qos) == Got(if qos == 0 then 0 else id, rest)
  {
  }

  lemma FrontReadsBack(m: Publish, id: nat, rest: seq<byte>, reader: Reader)
    requires StringOk(SentTopic(m), Topic, reader) && m.qos <= 2 && (m.qos > 0 ==> 0 < id < 0x1_0000)
    ensures ReadFront(FirstByte(m.qos, m.retain), Str(SentTopic(m)) + (PacketId(m.qos, id) + rest), reader)
      == Got((SentTopic(m), if m.qos == 0 then 0 else id), rest)
  {
    FirstByteReadsBack(m.qos, m.retain);
    StrReadsBack(SentTopic(m), Topic, reader, PacketId(m.qos, id) + rest);
    PacketIdReadsBack(m.qos, id, rest);
  }

  lemma BodyParts(m: Publish, version: nat, id: nat, ps: seq<Property>)
    ensures BodyWith(m, version, id, ps) == Str(SentTopic(m)) + (PacketId(m.qos, id) + (PropertySection(version, ps) + m.payload))
  {
  }

  /** The properties may come in any order: the packet is read as the message they describe. */
  lemma AnyOrderReadsBack(m: Publish, version: nat, id: nat, ps: seq<Property>, reader: Reader, aliases: Aliases)
    requires InLimits(m, reader, aliases) && ForVersion(m, version) == m && (m.qos > 0 ==> 0 < id < 0x1_0000)
    requires version >= MQTT_5 ==> Describes(ps, m) && |AllWritten(ps)| <= MAX_VALUE
    requires forall p :: p in ps ==> Representable(p)
    requires SUBSCRIPTION_IDENTIFIER in Kinds(ps) ==> TakesIdentifiers(reader)
    ensures Received(Parse(FirstByte(m.qos, m.retain), BodyWith(m, version, id, ps), version, reader, aliases), m, id, reader, aliases)
  {
    FirstByteReadsBack(m.qos, m.retain);
    BodyParts(m, version, id, ps);
    FrontReadsBack(m, id, PropertySection(version, ps) + m.payload, reader);
    if version >= MQTT_5 {
      SectionReadsBack(m, version, ps, reader, aliases, m.payload);
      DescribedIsPartly(m, ps, reader, aliases);
    } else {
      assert [] + m.payload == m.payload;
    }
  }

  lemma UsersOfList(users: seq<UserProperty>)
    ensures Users(UserList(users)) == users && SinglesOnce(UserList(users)) && Kinds(UserList(users)) == {}
    decreases |users|
  {
    if users != [] {
      assert UserList(users)[1..] == UserList(users[1..]);
      UsersOfList(users[1..]);
    }
  }

  /** A list with true properties of the kinds given, each once. */
  predicate Fine(ps: seq<Property>, kinds: set<byte>, m: Publish) {
    && (forall p :: p in ps ==> Says(p, m) && Representable(p))
    && SinglesOnce(ps) && Users(ps) == m.userProperties && Kinds(ps) == kinds
  }

  function KindsFrom(m: Publish, slots: seq<Slot>): set<byte> {
    set slot | slot in slots && Has(m, slot) :: Kind(Single(m, slot))
  }

  lemma SingleKinds(m: Publish, slot: Slot, slot': Slot)
    requires Kind(Single(m, slot)) == Kind(Single(m, slot'))
    ensures slot == slot'
  {
  }

  lemma SingleSays(m: Publish, reader: Reader, slot: Slot)
    requires PropertiesOk(m, reader) && Has(m, slot)
    ensures Says(Single(m, slot), m) && Representable(Single(m, slot))
  {
  }

  lemma ConsFine(p: Property, others: seq<Property>, kinds: set<byte>, m: Publish)
    requires Fine(others, kinds, m) && !p.User? && Kind(p) !in kinds && Says(p, m) && Representable(p)
    ensures Fine([p] + others, {Kind(p)} + kinds, m)
  {
  }

  lemma KindsNext(m: Publish, slot: Slot, slots: seq<Slot>)
    requires slot !in slots
    ensures KindsFrom(m, [slot] + slots) == (if Has(m, slot) then {Kind(Single(m, slot))} else {}) + KindsFrom(m, slots)
    ensures Kind(Single(m, slot)) !in KindsFrom(m, slots)
  {
    forall other | other in slots ensures Kind(Single(m, other)) != Kind(Single(m, slot)) {
      if Kind(Single(m, other)) == Kind(Single(m, slot)) {
        SingleKinds(m, slot, other);
      }
    }
    var kinds := KindsFrom(m, [slot] + slots);
    assert forall s :: s in [slot] + slots <==> s == slot || s in slots;
    assert Has(m, slot) ==> slot in [slot] + slots && Kind(Single(m, slot)) in kinds;
  }

  lemma UserListFine(m: Publish, reader: Reader)
    requires PropertiesOk(m, reader)
    ensures Fine(UserList(m.userProperties), {}, m)
  {
    UsersOfList(m.userProperties);
    forall p | p in UserList(m.userProperties) ensures Says(p, m) && Representable(p) {
      assert p.property in m.userProperties;
    }
  }

  lemma {:induction false} BuilderFine(m: Publish, reader: Reader, slots: seq<Slot>)
    requires PropertiesOk(m, reader) && forall i, j :: 0 <= i < j < |slots| ==> slots[i] != slots[j]
    ensures Fine(PropertiesFrom(m, slots), KindsFrom(m, slots), m)
  {
    if slots == [] {
      UserListFine(m, reader);
      assert KindsFrom(m, slots) == {};
    } else {
      var slot, others, kinds := slots[0], PropertiesFrom(m, slots[1..]), KindsFrom(m, slots[1..]);
      BuilderFine(m, reader, slots[1..]);
      assert slots == [slot] + slots[1..];
      KindsNext(m, slot, slots[1..]);
      if Has(m, slot) {
        SingleSays(m, reader, slot);
        ConsFine(Single(m, slot), others, kinds, m);
      } else {
        assert [] + others == others && {} + kinds == kinds;
      }
    }
  }

  lemma KindOf(m: Publish, slots: seq<Slot>, slot: Slot)
    requires slot in slots
    ensures Kind(Single(m, slot)) in KindsFrom(m, slots) <==> Has(m, slot)
  {
  }

  lemma FineDescribes(ps: seq<Property>, kinds: set<byte>, m: Publish)
    requires Fine(ps, kinds, m)
    requires forall slot :: Kind(Single(m, slot)) in kinds <==> Has(m, slot)
    ensures Describes(ps, m) && (SUBSCRIPTION_IDENTIFIER in Kinds(ps) ==> m.subscriptionIdentifier > 0)
  {
    assert Kind(Single(m, Expiry)) == MESSAGE_EXPIRY && Kind(Single(m, Correlation)) == CORRELATION_DATA;
    assert Kind(Single(m, Response)) == RESPONSE_TOPIC && Kind(Single(m, Content)) == CONTENT_TYPE;
    assert Kind(Single(m, Format)) == PAYLOAD_FORMAT && Kind(Single(m, Alias)) == TOPIC_ALIAS;
    assert Kind(Single(m, Subscription)) == SUBSCRIPTION_IDENTIFIER;
  }

  lemma EverySlot(slot: Slot)
    ensures slot in SLOTS
    ensures forall i, j :: 0 <= i < j < |SLOTS| ==> SLOTS[i] != SLOTS[j]
  {
  }

  /** The list the builder makes describes the message. */
  lemma BuilderDescribes(m: Publish, reader: Reader)
    requires PropertiesOk(m, reader)
    ensures var ps := PropertiesOf(m);
      && Describes(ps, m) && (forall p :: p in ps ==> Representable(p))
      && (SUBSCRIPTION_IDENTIFIER in Kinds(ps) ==> m.subscriptionIdentifier > 0)
  {
    EverySlot(Expiry);
    BuilderFine(m, reader, SLOTS);
    forall slot: Slot ensures Kind(Single(m, slot)) in KindsFrom(m, SLOTS) <==> Has(m, slot) {
      EverySlot(slot);
      KindOf(m, SLOTS, slot);
    }
    FineDescribes(PropertiesFrom(m, SLOTS), KindsFrom(m, SLOTS), m);
  }

  /** The fixed header leads to the body, whatever comes after the packet. */
  lemma FrameSplits(first: byte, body: seq<byte>, more: seq<byte>, sender: MqttSplitter.Sender)
    requires |body| <= MAX_VALUE && first / 16 == MqttSplitter.PUBLISH
    requires |Framed(first, body)| <= MqttSplitter.SizeLimit(sender)
    requires sender.authenticated || |Framed(first, body)| < MqttSplitter.UNAUTHENTICATED_MAX
    ensures MqttSplitter.Next(Framed(first, body) + more, sender) == MqttSplitter.Whole(|Framed(first, body)|)
    ensures MqttSplitter.Complaint(Framed(first, body), sender) == []
  {
    var w := Framed(first, body);
    RoundTrip(|body|, body + more);
    assert (w + more)[1..] == Encode(|body|) + (body + more);
  }

  lemma FrameParses(first: byte, body: seq<byte>, version: nat, reader: Reader, aliases: Aliases)
    requires |body| <= MAX_VALUE
    ensures ParsePacket(Framed(first, body), version, reader, aliases) == Parse(first, body, version, reader, aliases)
  {
    var w := Framed(first, body);
    RoundTrip(|body|, body);
    assert w[1..] == Encode(|body|) + body;
    assert w[1 + |Encode(|body|)|..] == body;
  }

  lemma BodyForVersion(m: Publish, version: nat, id: nat)
    ensures Body(ForVersion(m, version), version, id) == Body(m, version, id)
  {
  }

  /** Build, write, split and parse: the splitter finds the packet, and the parser finds the message in it. */
  lemma PublishSurvives(m: Publish, version: nat, id: nat, sender: MqttSplitter.Sender, reader: Reader, aliases: Aliases, more: seq<byte>)
    requires var m' := ForVersion(m, version); InLimits(m', reader, aliases)
    requires m.qos > 0 ==> 0 < id < 0x1_0000
    requires |Body(m, version, id)| <= MAX_VALUE
    requires var w := Framed(FirstByte(m.qos, m.retain), Body(m, version, id));
      |w| <= MqttSplitter.SizeLimit(sender) && (sender.authenticated || |w| < MqttSplitter.UNAUTHENTICATED_MAX)
    ensures var w := Framed(FirstByte(m.qos, m.retain), Body(m, version, id));
      && MqttSplitter.Next(w + more, sender) == MqttSplitter.Whole(|w|) && MqttSplitter.Complaint(w, sender) == []
      && Received(ParsePacket(w, version, reader, aliases), ForVersion(m, version), id, reader, aliases)
  {
    var m' := ForVersion(m, version);
    var first, body := FirstByte(m.qos, m.retain), Body(m, version, id);
    FirstByteReadsBack(m.qos, m.retain);
    FrameSplits(first, body, more, sender);
    FrameParses(first, body, version, reader, aliases);
    BodyReadsBack(m', version, id, reader, aliases);
    BodyForVersion(m, version, id);
  }

  lemma FrontRefused(first: byte, data: seq<byte>, reader: Reader)
    requires first / 2 % 4 == 3 || (first / 2 % 4 == 0 && first / 8 % 2 == 1)
    ensures ReadFront(first, data, reader) == Fail(MalformedPacket)
  {
  }

  /** QoS 3 is refused, and a duplicate of QoS 0. */
  lemma FlagsRefused(first: byte, data: seq<byte>, version: nat, reader: Reader, aliases: Aliases)
    requires first in {0x36, 0x37, 0x38, 0x39, 0x3E, 0x3F}
    ensures Parse(first, data, version, reader, aliases) == Fail(MalformedPacket)
  {
    FrontRefused(first, data, reader);
  }

  lemma FrontZeroId(first: byte, topic: seq<byte>, rest: seq<byte>, reader: Reader)
    requires StringOk(topic, Topic, reader) && first / 2 % 4 in {1, 2}
    ensures ReadFront(first, Str(topic) + ([0, 0] + rest), reader) == Fail(MalformedPacket)
  {
    StrReadsBack(topic, Topic, reader, [0, 0] + rest);
  }

  /** The packet id 0 is refused. */
  lemma ZeroIdRefused(first: byte, topic: seq<byte>, rest: seq<byte>, version: nat, reader: Reader, aliases: Aliases)
    requires StringOk(topic, Topic, reader) && first in {0x32, 0x33, 0x34, 0x35, 0x3A, 0x3B, 0x3C, 0x3D}
    ensures Parse(first, Str(topic) + ([0, 0] + rest), version, reader, aliases) == Fail(MalformedPacket)
  {
    FrontZeroId(first, topic, rest, reader);
  }

  lemma BackWithoutTopic(first: byte, s: seq<byte>, version: nat, reader: Reader, aliases: Aliases)
    requires version < 5
    ensures ReadBack(first, 0, s, Start([], aliases), version, reader) == Fail(ProtocolViolation)
  {
  }

  /** Without an alias, an empty topic is refused. */
  lemma EmptyTopicRefused(first: byte, rest: seq<byte>, version: nat, reader: Reader, aliases: Aliases)
    requires StringOk([], Topic, reader) && version < 5 && first in {0x30, 0x31}
    ensures Parse(first, Str([]) + rest, version, reader, aliases) == Fail(ProtocolViolation)
  {
    StrReadsBack([], Topic, reader, rest);
    assert first / 2 % 4 == 0 && first / 8 % 2 == 0;
    assert ReadFront(first, Str([]) + rest, reader) == Got(([], 0), rest);
    BackWithoutTopic(first, rest, version, reader, aliases);
  }

  lemma BodyReadsBack(m: Publish, version: nat, id: nat, reader: Reader, aliases: Aliases)
    requires InLimits(m, reader, aliases) && ForVersion(m, version) == m && (m.qos > 0 ==> 0 < id < 0x1_0000)
    requires |Body(m, version, id)| <= MAX_VALUE
    ensures Received(Parse(FirstByte(m.qos, m.retain), Body(m, version, id), version, reader, aliases), m, id, reader, aliases)
  {
    BuilderDescribes(m, reader);
    AnyOrderReadsBack(m, version, id, PropertiesOf(m), reader, aliases);
  }
}
