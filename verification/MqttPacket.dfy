/** The wire format of MQTT 3.1.1: sections 1.5, 2.2, 3.1, 3.3, 3.8 and 3.10. */
module MqttWire {
  import opened Common

  const MAX_REMAINING_LENGTH := 268435455

  datatype PacketType =
    | CONNECT | CONNACK | PUBLISH | PUBACK | PUBREC | PUBREL | PUBCOMP | SUBSCRIBE | SUBACK
    | UNSUBSCRIBE | UNSUBACK | PINGREQ | PINGRESP | DISCONNECT

  function Nibble(t: PacketType): (n: nat)
    ensures 1 <= n <= 14
  {
    match t
    case CONNECT => 1 case CONNACK => 2 case PUBLISH => 3 case PUBACK => 4 case PUBREC => 5
    case PUBREL => 6 case PUBCOMP => 7 case SUBSCRIBE => 8 case SUBACK => 9 case UNSUBSCRIBE => 10
    case UNSUBACK => 11 case PINGREQ => 12 case PINGRESP => 13 case DISCONNECT => 14
  }

  // ---- section 2.2.3: remaining length ----

  /** Seven bits a byte, least significant first, the top bit set on all but the last. */
  function RemainingLength(n: nat): (r: seq<byte>)
    ensures |r| >= 1
  {
    if n < 128 then [n] else [n % 128 + 128] + RemainingLength(n / 128)
  }

  /** How many bytes RemainingLength takes. */
  function Width(n: nat): (w: nat)
    ensures w == |RemainingLength(n)|
  {
    if n < 128 then 1 else 1 + Width(n / 128)
  }

  lemma WidthBound(n: nat)
    ensures n <= MAX_REMAINING_LENGTH <==> Width(n) <= 4
    ensures n < 0x8000_0000 ==> Width(n) <= 5
    ensures Width(n) == |RemainingLength(n)|
  {
    var n1, n2, n3, n4 := n / 128, n / 128 / 128, n / 128 / 128 / 128, n / 128 / 128 / 128 / 128;
    assert Width(n) <= 4 <==> Width(n1) <= 3 || n < 128;
    assert Width(n1) <= 3 <==> Width(n2) <= 2 || n1 < 128;
    assert Width(n2) <= 2 <==> n3 < 128 || n2 < 128;
    assert n3 == n / 2097152;
    assert n < 0x8000_0000 ==> n4 < 128;
  }

  /** A finished run of length bytes: only the last has its top bit clear. */
  predicate Complete(d: seq<byte>) {
    |d| > 0 && d[|d| - 1] < 128 && forall i :: 0 <= i < |d| - 1 ==> d[i] >= 128
  }

  /** The value the length bytes stand for. */
  function ValueOf(d: seq<byte>): nat {
    if |d| == 0 then 0 else d[0] % 128 + 128 * ValueOf(d[1..])
  }

  lemma ValueOfCons(d: seq<byte>)
    requires |d| > 0
    ensures ValueOf(d) == d[0] % 128 + 128 * ValueOf(d[1..])
  {}

  lemma MoreLength(c: byte, r: seq<byte>)
    requires c >= 128 && Complete(r)
    ensures Complete([c] + r) && ValueOf([c] + r) == c % 128 + 128 * ValueOf(r)
  {
    hide ValueOf;
    assert ([c] + r)[1..] == r;
    ValueOfCons([c] + r);
  }

  lemma {:induction false} RemainingLengthDecodes(n: nat)
    ensures Complete(RemainingLength(n)) && ValueOf(RemainingLength(n)) == n
  {
    if n >= 128 {
      RemainingLengthDecodes(n / 128);
      MoreLength(n % 128 + 128, RemainingLength(n / 128));
    }
  }

  /** No complete run of length bytes for the same value is shorter. */
  lemma {:induction false} RemainingLengthIsMinimal(d: seq<byte>)
    requires Complete(d)
    ensures |RemainingLength(ValueOf(d))| <= |d|
  {
    var n := ValueOf(d);
    if |d| > 1 {
      assert Complete(d[1..]);
      RemainingLengthIsMinimal(d[1..]);
      assert n / 128 == ValueOf(d[1..]);
    }
  }

  // ---- section 1.5 and the packets ----

  function Int16(v: nat): (r: seq<byte>)
    ensures |r| == 2
  {
    [v / 256 % 256, v % 256]
  }

  function Str16(s: seq<byte>): (r: seq<byte>)
    ensures |r| == 2 + |s|
  {
    Int16(|s|) + s
  }

  datatype PublishFlags = PublishFlags(dup: byte, qos: byte, retain: byte)

  /** The header byte; each flag keeps only the bits its field has. */
  function PublishHeader(f: PublishFlags): byte {
    0x30 + f.dup % 2 * 8 + f.qos % 4 * 2 + f.retain % 2
  }

  function PublishBody(f: PublishFlags, id: uint16, topic: seq<byte>, payload: seq<byte>): seq<byte> {
    Str16(topic) + (if f.qos > 0 then Int16(id) else []) + payload
  }

  function Packet(header: byte, body: seq<byte>): seq<byte> {
    [header] + RemainingLength(|body|) + body
  }

  function PublishPacket(f: PublishFlags, id: uint16, topic: seq<byte>, payload: seq<byte>): seq<byte> {
    Packet(PublishHeader(f), PublishBody(f, id, topic, payload))
  }

  datatype WillOptions = WillOptions(topic_name: seq<byte>, message: seq<byte>, retained: byte, qos: byte)

  datatype ConnectOption = ConnectOption(
    mqtt_version: byte, client_id: seq<byte>, keep_alive_interval: uint16, clean_session: byte, will_flag: byte,
    will: WillOptions, username: Option<seq<byte>>, password: Option<seq<byte>>)

  const MQISDP: seq<byte> := [0x4D, 0x51, 0x49, 0x73, 0x64, 0x70]
  const MQTT: seq<byte> := [0x4D, 0x51, 0x54, 0x54]

  /** The connect flags; each one keeps only the bits its field has. */
  function ConnectFlags(o: ConnectOption): byte {
    o.clean_session % 2 * 2 + o.will_flag % 2 * 4 +
    (if o.will_flag > 0 then o.will.qos % 4 * 8 + o.will.retained % 2 * 32 else 0) +
    (if o.password.Some? then 64 else 0) + (if o.username.Some? then 128 else 0)
  }

  function ConnectProtocol(version: byte): seq<byte> {
    if version == 3 then Str16(MQISDP) + [3] else Str16(MQTT) + [4]
  }

  function ConnectWill(o: ConnectOption): seq<byte> {
    if o.will_flag > 0 then Str16(o.will.topic_name) + Str16(o.will.message) else []
  }

  function OptionalStr(s: Option<seq<byte>>): seq<byte> {
    if s.Some? then Str16(s.value) else []
  }

  function ConnectBody(o: ConnectOption): seq<byte> {
    ConnectProtocol(o.mqtt_version) + [ConnectFlags(o)] + Int16(o.keep_alive_interval) + Str16(o.client_id) +
    ConnectWill(o) + OptionalStr(o.username) + OptionalStr(o.password)
  }

  function ConnectPacket(o: ConnectOption): seq<byte> {
    Packet(0x10, ConnectBody(o))
  }

  function Low8(v: int): byte {
    v % 256
  }

  /** The filters of a SUBSCRIBE, each with its requested QoS, in order. */
  function SubscribeFilters(filters: seq<seq<byte>>, qos: seq<int>): seq<byte>
    requires |filters| == |qos|
  {
    if |filters| == 0 then []
    else
      var n := |filters| - 1;
      SubscribeFilters(filters[..n], qos[..n]) + Str16(filters[n]) + [Low8(qos[n])]
  }

  function SubscribePacket(id: uint16, filters: seq<seq<byte>>, qos: seq<int>): seq<byte>
    requires |filters| == |qos|
  {
    Packet(0x82, Int16(id) + SubscribeFilters(filters, qos))
  }

  function UnsubscribeFilters(filters: seq<seq<byte>>): seq<byte> {
    if |filters| == 0 then []
    else
      var n := |filters| - 1;
      UnsubscribeFilters(filters[..n]) + Str16(filters[n])
  }

  function UnsubscribePacket(id: uint16, filters: seq<seq<byte>>): seq<byte> {
    Packet(0xA2, Int16(id) + UnsubscribeFilters(filters))
  }

  function PubackPacket(id: uint16): seq<byte> {
    Packet(0x40, Int16(id))
  }
}

/** The serializers: a byte buffer written through an advancing pointer. */
module MqttSerialize {
  import opened Common
  import opened MqttWire

  const MQTT_ERR_INVALID_PACKET_TYPE := -1
  const MQTT_ERR_SHORT_BUFFER := -2
  const MQTT_ERR_VERSION_UNSUPPORTED := -3

  lemma PutNothing(s: seq<byte>, i: nat)
    requires i <= |s|
    ensures Put(s, i, []) == s
  {}

  lemma PutPut(s: seq<byte>, i: nat, a: seq<byte>, b: seq<byte>)
    requires i + |a| + |b| <= |s|
    ensures Put(Put(s, i, a), i + |a|, b) == Put(s, i, a + b)
  {}

  method WriteChar(c: byte, buf: array<byte>, ptr: nat) returns (ptr': nat)
    requires ptr < buf.Length
    modifies buf
    ensures ptr' == ptr + 1 && buf[..] == Put(old(buf[..]), ptr, [c])
  {
    buf[ptr] := c;
    ptr' := ptr + 1;
  }

  method WriteBytes(s: seq<byte>, buf: array<byte>, ptr: nat) returns (ptr': nat)
    requires ptr + |s| <= buf.Length
    modifies buf
    ensures ptr' == ptr + |s| && buf[..] == Put(old(buf[..]), ptr, s)
  {
    forall i | 0 <= i < |s| {
      buf[ptr + i] := s[i];
    }
    ptr' := ptr + |s|;
  }

  method WriteInt(value: nat, buf: array<byte>, ptr: nat) returns (ptr': nat)
    requires ptr + 2 <= buf.Length
    modifies buf
    ensures ptr' == ptr + 2 && buf[..] == Put(old(buf[..]), ptr, Int16(value))
  {
    buf[ptr] := value / 256 % 256;
    buf[ptr + 1] := value % 256;
    ptr' := ptr + 2;
  }

  method WriteString(s: seq<byte>, buf: array<byte>, ptr: nat) returns (ptr': nat)
    requires ptr + 2 + |s| <= buf.Length
    modifies buf
    ensures ptr' == ptr + 2 + |s| && buf[..] == Put(old(buf[..]), ptr, Str16(s))
  {
    ptr' := WriteInt(|s|, buf, ptr);
    ptr' := WriteBytes(s, buf, ptr');
    PutPut(old(buf[..]), ptr, Int16(|s|), s);
  }

  method RemainingLengthSerialize(length: nat, buf: array<byte>, ptr: nat) returns (ptr': nat)
    requires ptr + Width(length) <= buf.Length
    modifies buf
    ensures ptr' == ptr + Width(length) && buf[..] == Put(old(buf[..]), ptr, RemainingLength(length))
  {
    hide Put;
    var left := length;
    ptr' := ptr;
    ghost var done: seq<byte> := [];
    PutNothing(buf[..], ptr);
    while true
      invariant ptr' == ptr + |done| && ptr' + Width(left) == ptr + Width(length)
      invariant buf[..] == Put(old(buf[..]), ptr, done)
      invariant done + RemainingLength(left) == RemainingLength(length)
      decreases left
    {
      ghost var rest := RemainingLength(left);
      var d := left % 128;
      left := left / 128;
      if left > 0 {
        d := d + 128;
      }
      PutPut(old(buf[..]), ptr, done, [d]);
      ptr' := WriteChar(d, buf, ptr');
      if left == 0 {
        assert rest == [d];
        return;
      }
      assert rest == [d] + RemainingLength(left);
      assert done + rest == done + [d] + RemainingLength(left);
      done := done + [d];
    }
  }

  /** Serializes a PUBLISH. The length check allows for four length bytes; a remaining length that takes
      a fifth is written past it, so the caller's memory must then be one byte longer. */
  method PublishSerialize(buf: array<byte>, buf_len: nat, flags: PublishFlags, packet_id: uint16,
                          topic: seq<byte>, payload: seq<byte>) returns (rc: int)
    requires buf_len <= buf.Length
    requires var len := |PublishBody(flags, packet_id, topic, payload)|;
             len < 0x8000_0000 && (len <= MAX_REMAINING_LENGTH || buf_len < len + 5 || len + 6 <= buf.Length)
    modifies buf
    ensures var packet := PublishPacket(flags, packet_id, topic, payload);
            var len := |PublishBody(flags, packet_id, topic, payload)|;
            && rc == (if buf_len < len + 5 then MQTT_ERR_SHORT_BUFFER else |packet|)
            && (rc > 0 ==> |packet| <= buf.Length && buf[..] == Put(old(buf[..]), 0, packet))
            && (rc > 0 ==> (rc <= buf_len <==> len <= MAX_REMAINING_LENGTH || len + 6 <= buf_len))
    ensures rc < 0 ==> buf[..] == if buf_len < 2 then old(buf[..]) else Put(old(buf[..]), 0, [PublishHeader(flags)])
  {
    hide Put, RemainingLength, Width, Str16, Int16;
    if buf_len < 2 {
      return MQTT_ERR_SHORT_BUFFER;
    }
    ghost var was := buf[..];
    var ptr := WriteChar(PublishHeader(flags), buf, 0);
    var len := 2 + |topic| + |payload|;
    if flags.qos > 0 {
      len := len + 2;
    }
    if buf_len < len + 5 {
      return MQTT_ERR_SHORT_BUFFER;
    }
    WidthBound(len);
    ptr := RemainingLengthSerialize(len, buf, ptr);
    PutPut(was, 0, [PublishHeader(flags)], RemainingLength(len));
    ghost var done := [PublishHeader(flags)] + RemainingLength(len);
    ptr := WriteString(topic, buf, ptr);
    PutPut(was, 0, done, Str16(topic));
    done := done + Str16(topic);
    if flags.qos > 0 {
      ptr := WriteInt(packet_id, buf, ptr);
      PutPut(was, 0, done, Int16(packet_id));
      done := done + Int16(packet_id);
    }
    ptr := WriteBytes(payload, buf, ptr);
    PutPut(was, 0, done, payload);
    assert done + payload == PublishPacket(flags, packet_id, topic, payload);
    return ptr;
  }

  /** The remaining length a CONNECT declares. */
  function ConnectLength(o: ConnectOption): nat {
    (if o.mqtt_version == 3 then 12 else 10) + |o.client_id| + 2 +
    (if o.will_flag > 0 then |o.will.topic_name| + 2 + |o.will.message| + 2 else 0) +
    (if o.username.Some? then |o.username.value| + 2 else 0) +
    (if o.password.Some? then |o.password.value| + 2 else 0)
  }

  /** The length declared is the length of what follows. */
  lemma ConnectLengthIsExact(o: ConnectOption)
    ensures ConnectLength(o) == |ConnectBody(o)|
  {
    assert |ConnectProtocol(o.mqtt_version)| == if o.mqtt_version == 3 then 9 else 7;
    assert |ConnectWill(o)| == if o.will_flag > 0 then |o.will.topic_name| + 2 + |o.will.message| + 2 else 0;
    assert |OptionalStr(o.username)| == if o.username.Some? then |o.username.value| + 2 else 0;
    assert |OptionalStr(o.password)| == if o.password.Some? then |o.password.value| + 2 else 0;
  }

  method ConnectVariableHeader(buf: array<byte>, ptr: nat, o: ConnectOption) returns (ptr': nat)
    requires o.mqtt_version == 3 || o.mqtt_version == 4
    requires var head := ConnectProtocol(o.mqtt_version) + [ConnectFlags(o)] + Int16(o.keep_alive_interval);
             ptr + |head| <= buf.Length
    modifies buf
    ensures var head := ConnectProtocol(o.mqtt_version) + [ConnectFlags(o)] + Int16(o.keep_alive_interval);
            ptr' == ptr + |head| && buf[..] == Put(old(buf[..]), ptr, head)
  {
    hide Put, Str16, Int16;
    ghost var was, done := buf[..], [];
    if o.mqtt_version == 3 {
      ptr' := WriteString(MQISDP, buf, ptr);
      ptr' := WriteChar(3, buf, ptr');
      PutPut(was, ptr, Str16(MQISDP), [3]);
    } else {
      ptr' := WriteString(MQTT, buf, ptr);
      ptr' := WriteChar(4, buf, ptr');
      PutPut(was, ptr, Str16(MQTT), [4]);
    }
    done := ConnectProtocol(o.mqtt_version);
    ptr' := WriteChar(ConnectFlags(o), buf, ptr');
    PutPut(was, ptr, done, [ConnectFlags(o)]);
    ptr' := WriteInt(o.keep_alive_interval, buf, ptr');
    PutPut(was, ptr, done + [ConnectFlags(o)], Int16(o.keep_alive_interval));
  }

  method WriteOptional(s: Option<seq<byte>>, buf: array<byte>, ptr: nat) returns (ptr': nat)
    requires ptr + |OptionalStr(s)| <= buf.Length
    modifies buf
    ensures ptr' == ptr + |OptionalStr(s)| && buf[..] == Put(old(buf[..]), ptr, OptionalStr(s))
  {
    if s.Some? {
      ptr' := WriteString(s.value, buf, ptr);
    } else {
      ptr' := ptr;
      PutNothing(buf[..], ptr);
    }
  }

  method ConnectPayload(buf: array<byte>, ptr: nat, o: ConnectOption) returns (ptr': nat)
    requires var tail := Str16(o.client_id) + ConnectWill(o) + OptionalStr(o.username) + OptionalStr(o.password);
             ptr + |tail| <= buf.Length
    modifies buf
    ensures var tail := Str16(o.client_id) + ConnectWill(o) + OptionalStr(o.username) + OptionalStr(o.password);
            ptr' == ptr + |tail| && buf[..] == Put(old(buf[..]), ptr, tail)
  {
    hide Put, Str16, Int16;
    ghost var was, done := buf[..], Str16(o.client_id);
    ptr' := WriteString(o.client_id, buf, ptr);
    if o.will_flag > 0 {
      ptr' := WriteString(o.will.topic_name, buf, ptr');
      PutPut(was, ptr, done, Str16(o.will.topic_name));
      ptr' := WriteString(o.will.message, buf, ptr');
      PutPut(was, ptr, done + Str16(o.will.topic_name), Str16(o.will.message));
      assert done + Str16(o.will.topic_name) + Str16(o.will.message) == done + ConnectWill(o);
    } else {
      assert done == done + ConnectWill(o);
    }
    done := done + ConnectWill(o);
    ptr' := WriteOptional(o.username, buf, ptr');
    PutPut(was, ptr, done, OptionalStr(o.username));
    done := done + OptionalStr(o.username);
    ptr' := WriteOptional(o.password, buf, ptr');
    PutPut(was, ptr, done, OptionalStr(o.password));
  }

  /** Serializes a CONNECT. The length check leaves out the fixed header, so a buffer that passes it can
      still be too short; the caller's memory must hold the whole packet. */
  method ConnectSerialize(buf: array<byte>, buf_len: nat, o: ConnectOption) returns (rc: int)
    requires buf_len <= buf.Length
    requires ConnectLength(o) < 0x8000_0000
    requires buf_len >= ConnectLength(o) ==> 1 + Width(ConnectLength(o)) + ConnectLength(o) <= buf.Length
    modifies buf
    ensures var len := ConnectLength(o);
            rc == if buf_len < 2 then MQTT_ERR_SHORT_BUFFER
                  else if o.mqtt_version != 3 && o.mqtt_version != 4 then MQTT_ERR_VERSION_UNSUPPORTED
                  else if buf_len < len then MQTT_ERR_SHORT_BUFFER
                  else if o.password.Some? && o.username.None? then MQTT_ERR_INVALID_PACKET_TYPE
                  else |ConnectPacket(o)|
    ensures rc > 0 ==> |ConnectPacket(o)| <= buf.Length && buf[..] == Put(old(buf[..]), 0, ConnectPacket(o))
    ensures rc < 0 ==>
              var w := if buf_len < 2 then []
                       else if rc == MQTT_ERR_INVALID_PACKET_TYPE then [0x10] + RemainingLength(ConnectLength(o))
                       else [0x10];
              |w| <= buf.Length && buf[..] == Put(old(buf[..]), 0, w)
    ensures rc > 0 ==> (rc <= buf_len <==> buf_len >= 1 + Width(ConnectLength(o)) + ConnectLength(o))
    ensures rc > 0 && ConnectLength(o) <= MAX_REMAINING_LENGTH && buf_len >= ConnectLength(o) + 5 ==> rc <= buf_len
  {
    hide Put, RemainingLength, Width, Str16, Int16, ConnectProtocol, ConnectWill, OptionalStr;
    ghost var was := buf[..];
    PutNothing(was, 0);
    if buf_len < 2 {
      return MQTT_ERR_SHORT_BUFFER;
    }
    var ptr := WriteChar(0x10, buf, 0);
    if o.mqtt_version != 3 && o.mqtt_version != 4 {
      return MQTT_ERR_VERSION_UNSUPPORTED;
    }
    var len := ConnectLength(o);
    ConnectLengthIsExact(o);
    if buf_len < len {
      return MQTT_ERR_SHORT_BUFFER;
    }
    WidthBound(len);
    ptr := RemainingLengthSerialize(len, buf, ptr);
    PutPut(was, 0, [0x10], RemainingLength(len));
    ghost var done := [0x10] + RemainingLength(len);
    if o.password.Some? && o.username.None? {
      return MQTT_ERR_INVALID_PACKET_TYPE;
    }
    ptr := ConnectVariableHeader(buf, ptr, o);
    ghost var head := ConnectProtocol(o.mqtt_version) + [ConnectFlags(o)] + Int16(o.keep_alive_interval);
    PutPut(was, 0, done, head);
    done := done + head;
    ptr := ConnectPayload(buf, ptr, o);
    ghost var tail := Str16(o.client_id) + ConnectWill(o) + OptionalStr(o.username) + OptionalStr(o.password);
    PutPut(was, 0, done, tail);
    assert head + tail == ConnectBody(o);
    assert done + tail == ConnectPacket(o);
    return ptr;
  }

  /** Twelve bytes pass the check for a CONNECT that takes fourteen. */
  lemma ConnectCheckIsTooWeak(o: ConnectOption)
    requires o == ConnectOption(4, [], 0, 0, 0, WillOptions([], [], 0, 0), None, None)
    ensures ConnectLength(o) == 12 && |ConnectPacket(o)| == 14
  {
    ConnectLengthIsExact(o);
    assert RemainingLength(12) == [12];
  }

  /** The bytes a list of filters takes, is_sub of them a filter for the requested QoS. */
  function FiltersLength(filters: seq<seq<byte>>, is_sub: nat): nat {
    if |filters| == 0 then 0
    else FiltersLength(filters[..|filters| - 1], is_sub) + 2 + |filters[|filters| - 1]| + is_sub
  }

  /** The length a SUBSCRIBE declares is the length of what follows. */
  lemma {:induction false} SubscribeLengthIsExact(filters: seq<seq<byte>>, qos: seq<int>)
    requires |filters| == |qos|
    ensures FiltersLength(filters, 1) == |SubscribeFilters(filters, qos)|
  {
    if |filters| > 0 {
      SubscribeLengthIsExact(filters[..|filters| - 1], qos[..|filters| - 1]);
    }
  }

  /** The length an UNSUBSCRIBE declares is the length of what follows. */
  lemma {:induction false} UnsubscribeLengthIsExact(filters: seq<seq<byte>>)
    ensures FiltersLength(filters, 0) == |UnsubscribeFilters(filters)|
  {
    if |filters| > 0 {
      UnsubscribeLengthIsExact(filters[..|filters| - 1]);
    }
  }

  /** The memory a filter packet of the given remaining length asks of the caller: none beyond buf_len,
      unless the length takes a fifth byte, which the check does not allow for. */
  predicate Holds(len: nat, buf_len: nat, size: nat) {
    len < 0x8000_0000 && (len <= MAX_REMAINING_LENGTH || buf_len < len + 5 || len + 6 <= size)
  }

  method FiltersLengthSerialize(buf: array<byte>, ptr: nat, buf_len: nat, filters: seq<seq<byte>>, is_sub: nat)
      returns (rc: int, ptr': nat)
    requires ptr == 1 && buf_len <= buf.Length && Holds(2 + FiltersLength(filters, is_sub), buf_len, buf.Length)
    modifies buf
    ensures var len := 2 + FiltersLength(filters, is_sub);
            if buf_len < len + 5 then rc == MQTT_ERR_SHORT_BUFFER && ptr' == ptr && buf[..] == old(buf[..])
            else
              && rc == 0 && ptr' == ptr + Width(len) && ptr' + len <= buf.Length
              && buf[..] == Put(old(buf[..]), ptr, RemainingLength(len))
  {
    var len: nat := 2;
    for i := 0 to |filters|
      invariant len == 2 + FiltersLength(filters[..i], is_sub)
    {
      len := len + 2 + |filters[i]| + is_sub;
      assert filters[..i + 1][..i] == filters[..i];
    }
    assert filters[..|filters|] == filters;
    if buf_len < len + 5 {
      return MQTT_ERR_SHORT_BUFFER, ptr;
    }
    WidthBound(len);
    ptr' := RemainingLengthSerialize(len, buf, ptr);
    rc := 0;
  }

  lemma {:induction false} SubscribeFiltersNext(filters: seq<seq<byte>>, qos: seq<int>, i: nat)
    requires i < |filters| == |qos|
    ensures SubscribeFilters(filters[..i + 1], qos[..i + 1])
         == SubscribeFilters(filters[..i], qos[..i]) + Str16(filters[i]) + [Low8(qos[i])]
    ensures |SubscribeFilters(filters[..i + 1], qos[..i + 1])| <= |SubscribeFilters(filters, qos)|
    decreases |filters|
  {
    assert filters[..i + 1][..i] == filters[..i] && qos[..i + 1][..i] == qos[..i];
    var n := |filters| - 1;
    if i < n {
      SubscribeFiltersNext(filters[..n], qos[..n], i);
      assert filters[..n][..i + 1] == filters[..i + 1] && qos[..n][..i + 1] == qos[..i + 1];
    } else {
      assert filters[..i + 1] == filters && qos[..i + 1] == qos;
    }
  }

  method WriteFilters(buf: array<byte>, ptr: nat, topic_filters: seq<seq<byte>>, requested_qos: seq<int>)
      returns (ptr': nat)
    requires |topic_filters| == |requested_qos|
    requires ptr + |SubscribeFilters(topic_filters, requested_qos)| <= buf.Length
    modifies buf
    ensures var w := SubscribeFilters(topic_filters, requested_qos);
            ptr' == ptr + |w| && buf[..] == Put(old(buf[..]), ptr, w)
  {
    hide Put, Str16;
    ghost var was := buf[..];
    PutNothing(was, ptr);
    ptr' := ptr;
    for i := 0 to |topic_filters|
      invariant ptr' == ptr + |SubscribeFilters(topic_filters[..i], requested_qos[..i])| <= buf.Length
      invariant buf[..] == Put(was, ptr, SubscribeFilters(topic_filters[..i], requested_qos[..i]))
    {
      ghost var done := SubscribeFilters(topic_filters[..i], requested_qos[..i]);
      SubscribeFiltersNext(topic_filters, requested_qos, i);
      ptr' := WriteString(topic_filters[i], buf, ptr');
      PutPut(was, ptr, done, Str16(topic_filters[i]));
      ptr' := WriteChar(Low8(requested_qos[i]), buf, ptr');
      PutPut(was, ptr, done + Str16(topic_filters[i]), [Low8(requested_qos[i])]);
    }
    assert topic_filters[..|topic_filters|] == topic_filters;
    assert requested_qos[..|topic_filters|] == requested_qos;
  }

  method SubscribeSerialize(buf: array<byte>, buf_len: nat, packet_id: uint16, topic_filters: seq<seq<byte>>,
                            requested_qos: seq<int>) returns (rc: int)
    requires buf_len <= buf.Length && |topic_filters| == |requested_qos|
    requires Holds(2 + FiltersLength(topic_filters, 1), buf_len, buf.Length)
    modifies buf
    ensures var packet := SubscribePacket(packet_id, topic_filters, requested_qos);
            var len := 2 + |SubscribeFilters(topic_filters, requested_qos)|;
            && rc == (if buf_len < len + 5 then MQTT_ERR_SHORT_BUFFER else |packet|)
            && (rc > 0 ==> |packet| <= buf.Length && buf[..] == Put(old(buf[..]), 0, packet))
            && (rc > 0 ==> (rc <= buf_len <==> len <= MAX_REMAINING_LENGTH || len + 6 <= buf_len))
    ensures rc < 0 ==> buf[..] == if buf_len < 2 then old(buf[..]) else Put(old(buf[..]), 0, [0x82])
  {
    hide Put, RemainingLength, Width, Str16, Int16, FiltersLength;
    SubscribeLengthIsExact(topic_filters, requested_qos);
    if buf_len < 2 {
      return MQTT_ERR_SHORT_BUFFER;
    }
    ghost var was := buf[..];
    ghost var len: nat := 2 + FiltersLength(topic_filters, 1);
    WidthBound(len);
    var ptr := WriteChar(0x82, buf, 0);
    rc, ptr := FiltersLengthSerialize(buf, ptr, buf_len, topic_filters, 1);
    if rc != 0 {
      return;
    }
    PutPut(was, 0, [0x82], RemainingLength(len));
    ghost var head := [0x82] + RemainingLength(len) + Int16(packet_id);
    ptr := WriteInt(packet_id, buf, ptr);
    PutPut(was, 0, [0x82] + RemainingLength(len), Int16(packet_id));
    ptr := WriteFilters(buf, ptr, topic_filters, requested_qos);
    PutPut(was, 0, head, SubscribeFilters(topic_filters, requested_qos));
    assert head + SubscribeFilters(topic_filters, requested_qos)
        == SubscribePacket(packet_id, topic_filters, requested_qos);
    return ptr;
  }

  lemma {:induction false} UnsubscribeFiltersNext(filters: seq<seq<byte>>, i: nat)
    requires i < |filters|
    ensures UnsubscribeFilters(filters[..i + 1]) == UnsubscribeFilters(filters[..i]) + Str16(filters[i])
    ensures |UnsubscribeFilters(filters[..i + 1])| <= |UnsubscribeFilters(filters)|
    decreases |filters|
  {
    assert filters[..i + 1][..i] == filters[..i];
    var n := |filters| - 1;
    if i < n {
      UnsubscribeFiltersNext(filters[..n], i);
      assert filters[..n][..i + 1] == filters[..i + 1];
    } else {
      assert filters[..i + 1] == filters;
    }
  }

  method WriteTopics(buf: array<byte>, ptr: nat, topic_filters: seq<seq<byte>>) returns (ptr': nat)
    requires ptr + |UnsubscribeFilters(topic_filters)| <= buf.Length
    modifies buf
    ensures var w := UnsubscribeFilters(topic_filters);
            ptr' == ptr + |w| && buf[..] == Put(old(buf[..]), ptr, w)
  {
    hide Put, Str16;
    ghost var was := buf[..];
    PutNothing(was, ptr);
    ptr' := ptr;
    for i := 0 to |topic_filters|
      invariant ptr' == ptr + |UnsubscribeFilters(topic_filters[..i])| <= buf.Length
      invariant buf[..] == Put(was, ptr, UnsubscribeFilters(topic_filters[..i]))
    {
      UnsubscribeFiltersNext(topic_filters, i);
      ptr' := WriteString(topic_filters[i], buf, ptr');
      PutPut(was, ptr, UnsubscribeFilters(topic_filters[..i]), Str16(topic_filters[i]));
    }
    assert topic_filters[..|topic_filters|] == topic_filters;
  }

  method UnsubscribeSerialize(buf: array<byte>, buf_len: nat, packet_id: uint16, topic_filters: seq<seq<byte>>)
      returns (rc: int)
    requires buf_len <= buf.Length && Holds(2 + FiltersLength(topic_filters, 0), buf_len, buf.Length)
    modifies buf
    ensures var packet := UnsubscribePacket(packet_id, topic_filters);
            var len := 2 + |UnsubscribeFilters(topic_filters)|;
            && rc == (if buf_len < len + 5 then MQTT_ERR_SHORT_BUFFER else |packet|)
            && (rc > 0 ==> |packet| <= buf.Length && buf[..] == Put(old(buf[..]), 0, packet))
            && (rc > 0 ==> (rc <= buf_len <==> len <= MAX_REMAINING_LENGTH || len + 6 <= buf_len))
    ensures rc < 0 ==> buf[..] == if buf_len < 2 then old(buf[..]) else Put(old(buf[..]), 0, [0xA2])
  {
    hide Put, RemainingLength, Width, Str16, Int16, FiltersLength;
    UnsubscribeLengthIsExact(topic_filters);
    if buf_len < 2 {
      return MQTT_ERR_SHORT_BUFFER;
    }
    ghost var was := buf[..];
    ghost var len: nat := 2 + FiltersLength(topic_filters, 0);
    WidthBound(len);
    var ptr := WriteChar(0xA2, buf, 0);
    rc, ptr := FiltersLengthSerialize(buf, ptr, buf_len, topic_filters, 0);
    if rc != 0 {
      return;
    }
    PutPut(was, 0, [0xA2], RemainingLength(len));
    ghost var head := [0xA2] + RemainingLength(len) + Int16(packet_id);
    ptr := WriteInt(packet_id, buf, ptr);
    PutPut(was, 0, [0xA2] + RemainingLength(len), Int16(packet_id));
    ptr := WriteTopics(buf, ptr, topic_filters);
    PutPut(was, 0, head, UnsubscribeFilters(topic_filters));
    assert head + UnsubscribeFilters(topic_filters) == UnsubscribePacket(packet_id, topic_filters);
    return ptr;
  }

  method PubackSerialize(buf: array<byte>, buf_len: nat, packet_id: uint16) returns (rc: int)
    requires buf_len <= buf.Length
    modifies buf
    ensures rc == if buf_len < 4 then MQTT_ERR_SHORT_BUFFER else |PubackPacket(packet_id)|
    ensures rc < 0 ==> buf[..] == old(buf[..])
    ensures rc > 0 ==> rc <= buf_len && buf[..] == Put(old(buf[..]), 0, PubackPacket(packet_id))
  {
    hide Put;
    if buf_len < 4 {
      return MQTT_ERR_SHORT_BUFFER;
    }
    ghost var was := buf[..];
    var ptr := WriteChar(0x40, buf, 0);
    ptr := RemainingLengthSerialize(2, buf, ptr);
    PutPut(was, 0, [0x40], RemainingLength(2));
    ptr := WriteInt(packet_id, buf, ptr);
    PutPut(was, 0, [0x40] + RemainingLength(2), Int16(packet_id));
    return ptr;
  }
}
