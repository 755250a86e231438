/** A decoder written from the MQTT 3.1.1 text alone: sections 1.5, 2.2.3, 2.3.1, 3.1, 3.3, 3.8, 3.10 and 4.7. The Read
    functions find the fields; the Decode functions also refuse values the standard forbids. */
module MqttDecode {
  import opened Common
  import opened MqttWire

  /** A value taken off the front of some bytes, and how many bytes it took. */
  datatype Taken<T> = Nothing | Taken(value: T, used: nat)

  /** A remaining length of at most max bytes. */
  function TakeLength(s: seq<byte>, max: nat): (r: Taken<nat>)
    ensures r.Taken? ==> 1 <= r.used <= |s| && r.used <= max
  {
    if max == 0 || |s| == 0 then Nothing
    else if s[0] < 128 then Taken(s[0], 1)
    else
      match TakeLength(s[1..], max - 1)
      case Nothing => Nothing
      case Taken(v, used) => Taken(s[0] % 128 + 128 * v, used + 1)
  }

  lemma {:induction false} LengthTaken(n: nat, rest: seq<byte>, max: nat)
    ensures TakeLength(RemainingLength(n) + rest, max) == if Width(n) <= max then Taken(n, Width(n)) else Nothing
  {
    var s := RemainingLength(n) + rest;
    if n >= 128 && max > 0 {
      assert s[1..] == RemainingLength(n / 128) + rest;
      LengthTaken(n / 128, rest, max - 1);
    }
  }

  /** A finished run of length bytes is read whole, and stands for its value. */
  lemma {:induction false} RunTaken(s: seq<byte>, max: nat, u: nat)
    requires u <= |s| && u <= max && Complete(s[..u])
    ensures TakeLength(s, max) == Taken(ValueOf(s[..u]), u)
  {
    ValueOfCons(s[..u]);
    if u > 1 {
      assert s[..u][1..] == s[1..][..u - 1];
      RunTaken(s[1..], max - 1, u - 1);
    }
  }

  lemma ValueOfNothing()
    ensures ValueOf([]) == 0
  {}

  /** What is read as a length is a finished run; there is none when every byte it may take says more. */
  lemma {:induction false} TakenIsRun(s: seq<byte>, max: nat)
    ensures var t := TakeLength(s, max);
            && (t.Taken? ==> Complete(s[..t.used]) && t.value == ValueOf(s[..t.used]))
            && (t.Nothing? <==> forall i :: 0 <= i < |s| && i < max ==> s[i] >= 128)
  {
    hide ValueOf;
    if max > 0 && |s| > 0 && s[0] >= 128 {
      TakenIsRun(s[1..], max - 1);
      var t := TakeLength(s[1..], max - 1);
      if t.Taken? {
        assert s[..t.used + 1] == [s[0]] + s[1..][..t.used];
        MoreLength(s[0], s[1..][..t.used]);
      } else {
        assert forall i :: 1 <= i < |s| && i < max ==> s[i] == s[1..][i - 1];
      }
    } else if max > 0 && |s| > 0 {
      ValueOfCons(s[..1]);
      ValueOfNothing();
      assert s[..1][1..] == [];
    }
  }

  function Pow128(k: nat): (p: nat)
    ensures p >= 1
  {
    if k == 0 then 1 else 128 * Pow128(k - 1)
  }

  lemma NextPower(a: nat, digit: nat, k: nat)
    ensures Pow128(0) == 1
    ensures 128 * (a + digit * Pow128(k)) == 128 * a + digit * Pow128(k + 1)
  {
    var p := Pow128(k);
    assert digit * (128 * p) == 128 * (digit * p);
  }

  /** A longer run adds its last digit at the next power. */
  lemma {:induction false} ValueOfSnoc(d: seq<byte>, c: byte)
    ensures ValueOf(d + [c]) == ValueOf(d) + c % 128 * Pow128(|d|)
  {
    hide ValueOf, Pow128;
    if |d| > 0 {
      assert (d + [c])[1..] == d[1..] + [c];
      ValueOfSnoc(d[1..], c);
      ValueOfCons(d + [c]);
      ValueOfCons(d);
      NextPower(ValueOf(d[1..]), c % 128, |d| - 1);
    } else {
      ValueOfCons([c]);
      ValueOfNothing();
      NextPower(0, 0, 0);
      assert d + [c] == [c] && [c][1..] == [] && d == [];
    }
  }

  lemma {:induction false} ValueOfPrefix(d: seq<byte>, k: nat)
    requires k <= |d|
    ensures ValueOf(d[..k]) <= ValueOf(d)
  {
    if k > 0 {
      assert d[..k][1..] == d[1..][..k - 1];
      ValueOfPrefix(d[1..], k - 1);
    }
  }

  function Word(hi: byte, lo: byte): uint16 {
    hi * 256 + lo
  }

  function TakeInt16(s: seq<byte>): (r: Taken<uint16>)
    ensures r.Taken? ==> r.used <= |s|
  {
    if |s| < 2 then Nothing else Taken(Word(s[0], s[1]), 2)
  }

  function TakeStr16(s: seq<byte>): (r: Taken<seq<byte>>)
    ensures r.Taken? ==> r.used <= |s| && |r.value| < 0x1_0000
  {
    if |s| < 2 || |s| < 2 + Word(s[0], s[1]) then Nothing
    else Taken(s[2..2 + Word(s[0], s[1])], 2 + Word(s[0], s[1]))
  }

  lemma Int16Taken(v: uint16, rest: seq<byte>)
    ensures TakeInt16(Int16(v) + rest) == Taken(v, 2)
    ensures (Int16(v) + rest)[2..] == rest
  {}

  lemma Str16Taken(t: seq<byte>, rest: seq<byte>)
    requires |t| < 0x1_0000
    ensures TakeStr16(Str16(t) + rest) == Taken(t, 2 + |t|)
    ensures (Str16(t) + rest)[2 + |t|..] == rest
  {
    var s := Str16(t) + rest;
    assert s[0] == |t| / 256 && s[1] == |t| % 256;
    assert s[2..2 + |t|] == t;
  }

  // ---- section 1.5.3 and 4.7: strings ----

  predicate Tail(b: byte) {
    0x80 <= b < 0xC0
  }

  /** The length of the UTF-8 character in front, by section 4 of RFC 3629; 0 for none, or U+0000. */
  function CharLength(s: seq<byte>): (n: nat)
    ensures n <= |s|
  {
    if |s| >= 1 && 0 < s[0] < 0x80 then 1
    else if |s| >= 2 && 0xC2 <= s[0] < 0xE0 && Tail(s[1]) then 2
    else if |s| >= 3 && Tail(s[2])
         && (if s[0] == 0xE0 then 0xA0 <= s[1] < 0xC0 else if s[0] == 0xED then 0x80 <= s[1] < 0xA0
             else 0xE1 <= s[0] < 0xF0 && Tail(s[1])) then 3
    else if |s| >= 4 && Tail(s[2]) && Tail(s[3])
         && (if s[0] == 0xF0 then 0x90 <= s[1] < 0xC0 else if s[0] == 0xF4 then 0x80 <= s[1] < 0x90
             else 0xF1 <= s[0] < 0xF4 && Tail(s[1])) then 4
    else 0
  }

  predicate Utf8(s: seq<byte>) {
    s == [] || (CharLength(s) > 0 && Utf8(s[CharLength(s)..]))
  }

  const SLASH: byte := 0x2F
  const PLUS: byte := 0x2B
  const HASH: byte := 0x23

  predicate TopicName(s: seq<byte>) {
    s != [] && Utf8(s) && PLUS !in s && HASH !in s
  }

  /** Whether character i of a topic filter fills its level. */
  predicate FillsLevel(s: seq<byte>, i: nat)
    requires i < |s|
  {
    (i == 0 || s[i - 1] == SLASH) && (i + 1 == |s| || s[i + 1] == SLASH)
  }

  predicate TopicFilter(s: seq<byte>) {
    && s != [] && Utf8(s)
    && forall i :: 0 <= i < |s| && s[i] in {PLUS, HASH} ==> FillsLevel(s, i) && (s[i] == HASH ==> i + 1 == |s|)
  }

  // ---- section 2.2: one packet ----

  datatype Frame = Frame(header: byte, body: seq<byte>)

  function TakeFrame(s: seq<byte>): (r: Taken<Frame>)
    ensures r.Taken? ==> r.used <= |s|
  {
    if |s| == 0 then Nothing
    else
      match TakeLength(s[1..], 4)
      case Nothing => Nothing
      case Taken(v, c) =>
        if |s| < 1 + c + v then Nothing else Taken(Frame(s[0], s[1 + c..1 + c + v]), 1 + c + v)
  }

  lemma FrameTaken(header: byte, body: seq<byte>, rest: seq<byte>)
    requires |body| <= MAX_REMAINING_LENGTH
    ensures TakeFrame(Packet(header, body) + rest) == Taken(Frame(header, body), |Packet(header, body)|)
  {
    hide RemainingLength, TakeLength;
    var s := Packet(header, body) + rest;
    var n := RemainingLength(|body|);
    assert s[1..] == n + (body + rest);
    LengthTaken(|body|, body + rest, 4);
    WidthBound(|body|);
    assert s[1 + |n|..1 + |n| + |body|] == body;
  }

  // ---- section 3.3: PUBLISH ----

  datatype Publish = Publish(flags: PublishFlags, id: Option<uint16>, topic: seq<byte>, payload: seq<byte>)

  function FlagsOf(header: byte): PublishFlags {
    PublishFlags(header / 8 % 2, header / 2 % 4, header % 2)
  }

  function ReadPublish(f: Frame): Option<Publish> {
    if f.header / 16 != Nibble(PUBLISH) then None
    else
      match TakeStr16(f.body)
      case Nothing => None
      case Taken(topic, used) =>
        var left := f.body[used..];
        if topic == [] then None
        else if FlagsOf(f.header).qos == 0 then Some(Publish(FlagsOf(f.header), None, topic, left))
        else
          match TakeInt16(left)
          case Nothing => None
          case Taken(id, _) => Some(Publish(FlagsOf(f.header), Some(id), topic, left[2..]))
  }

  /** The flags as the header byte carries them. */
  function FlagBits(f: PublishFlags): PublishFlags {
    PublishFlags(f.dup % 2, f.qos % 4, f.retain % 2)
  }

  lemma HeaderFlags(f: PublishFlags)
    ensures FlagsOf(PublishHeader(f)) == FlagBits(f) && PublishHeader(f) / 16 == Nibble(PUBLISH)
  {}

  /** The fields of a PUBLISH read back exactly when its topic has 1 to 65535 bytes and a QoS above 0 keeps
      a bit. */
  lemma PublishReads(f: PublishFlags, id: uint16, topic: seq<byte>, payload: seq<byte>)
    ensures ReadPublish(Frame(PublishHeader(f), PublishBody(f, id, topic, payload)))
         == Some(Publish(FlagBits(f), if f.qos > 0 then Some(id) else None, topic, payload))
        <==> 0 < |topic| < 0x1_0000 && (f.qos > 0 ==> f.qos % 4 > 0)
  {
    hide Str16, Int16, TakeInt16, FlagsOf, PublishHeader;
    HeaderFlags(f);
    if |topic| < 0x1_0000 {
      hide TakeStr16;
      var tail := (if f.qos > 0 then Int16(id) else []) + payload;
      assert PublishBody(f, id, topic, payload) == Str16(topic) + tail;
      Str16Taken(topic, tail);
      if f.qos > 0 {
        Int16Taken(id, payload);
      } else {
        assert tail == payload;
      }
    }
  }

  /** The values that sections 2.3.1, 3.3.1.1, 3.3.1.2, 3.3.2.1 and 4.7 allow in a PUBLISH. */
  predicate LawfulPublish(p: Publish) {
    && p.flags.qos < 3 && (p.flags.qos == 0 ==> p.flags.dup == 0)
    && p.id != Some(0) && TopicName(p.topic)
  }

  function DecodePublish(f: Frame): Option<Publish> {
    var p := ReadPublish(f);
    if p.Some? && LawfulPublish(p.value) then p else None
  }

  /** A server takes a PUBLISH of the client for what it is exactly when its topic is a name that fits its
      length field, its QoS is 1 or 2 with an id that is not 0, or 0 and not marked a duplicate. */
  lemma PublishDecodes(f: PublishFlags, id: uint16, topic: seq<byte>, payload: seq<byte>)
    ensures DecodePublish(Frame(PublishHeader(f), PublishBody(f, id, topic, payload)))
         == Some(Publish(FlagBits(f), if f.qos > 0 then Some(id) else None, topic, payload))
        <==> && |topic| < 0x1_0000 && TopicName(topic)
             && (if f.qos > 0 then 0 < f.qos % 4 < 3 && id > 0 else f.dup % 2 == 0)
  {
    hide ReadPublish, PublishBody, PublishHeader, Utf8;
    PublishReads(f, id, topic, payload);
    assert TopicName(topic) ==> topic != [];
  }

  // ---- section 3.1: CONNECT ----

  const NO_WILL := WillOptions([], [], 0, 0)

  /** The options as the packet carries them: each flag cut to its bits, the will only when flagged. */
  function Carried(o: ConnectOption): ConnectOption {
    o.(clean_session := o.clean_session % 2,
       will := if o.will_flag > 0
               then o.will.(retained := o.will.retained % 2, qos := o.will.qos % 4) else NO_WILL)
  }

  /** An optional string, present when its flag is set. */
  function TakeFlagged(flag: bool, s: seq<byte>): (r: Taken<Option<seq<byte>>>)
    ensures r.Taken? ==> r.used <= |s|
  {
    if !flag then Taken(None, 0)
    else
      match TakeStr16(s)
      case Nothing => Nothing
      case Taken(t, used) => Taken(Some(t), used)
  }

  /** Name and level: "MQTT" and 4 are MQTT 3.1.1, "MQIsdp" and 3 the older MQTT 3.1. */
  function TakeProtocol(s: seq<byte>): (r: Taken<byte>)
    ensures r.Taken? ==> r.used <= |s|
  {
    match TakeStr16(s)
    case Nothing => Nothing
    case Taken(name, used) =>
      if |s| == used then Nothing
      else if name == MQISDP && s[used] == 3 then Taken(3, used + 1)
      else if name == MQTT && s[used] == 4 then Taken(4, used + 1)
      else Nothing
  }

  function TakeWill(flags: byte, s: seq<byte>): (r: Taken<WillOptions>)
    ensures r.Taken? ==> r.used <= |s|
  {
    if flags / 4 % 2 == 0 then Taken(NO_WILL, 0)
    else
      match TakeStr16(s)
      case Nothing => Nothing
      case Taken(topic, used) =>
        match TakeStr16(s[used..])
        case Nothing => Nothing
        case Taken(message, more) => Taken(WillOptions(topic, message, flags / 32 % 2, flags / 8 % 4), used + more)
  }

  /** The payload of section 3.1.3, whose fields the flags announce. */
  function ReadPayload(version: byte, flags: byte, keep_alive: uint16, s: seq<byte>): Option<ConnectOption> {
    match TakeStr16(s)
    case Nothing => None
    case Taken(client, used) =>
      var s1 := s[used..];
      match TakeWill(flags, s1)
      case Nothing => None
      case Taken(will, used1) =>
        var s2 := s1[used1..];
        match TakeFlagged(flags / 128 == 1, s2)
        case Nothing => None
        case Taken(username, used2) =>
          var s3 := s2[used2..];
          match TakeFlagged(flags / 64 % 2 == 1, s3)
          case Nothing => None
          case Taken(password, used3) =>
            if used3 != |s3| then None
            else Some(ConnectOption(version, client, keep_alive, flags / 2 % 2, flags / 4 % 2, will, username, password))
  }

  function ReadConnect(f: Frame): Option<ConnectOption> {
    if f.header != 0x10 then None
    else
      match TakeProtocol(f.body)
      case Nothing => None
      case Taken(version, used) =>
        var s := f.body[used..];
        if |s| < 3 || s[0] % 2 != 0 || (s[0] / 4 % 2 == 0 && s[0] / 8 % 8 != 0)
           || (s[0] / 64 % 2 == 1 && s[0] / 128 == 0) then None
        else ReadPayload(version, s[0], Word(s[1], s[2]), s[3..])
  }

  /** Every string short enough for its length field, a 0/1 will flag, a known protocol level and no password
      without a user name. */
  predicate Sendable(o: ConnectOption) {
    && (o.mqtt_version == 3 || o.mqtt_version == 4) && o.will_flag < 2 && |o.client_id| < 0x1_0000
    && (o.will_flag > 0 ==> |o.will.topic_name| < 0x1_0000 && |o.will.message| < 0x1_0000)
    && (o.username.Some? ==> |o.username.value| < 0x1_0000)
    && (o.password.Some? ==> |o.password.value| < 0x1_0000 && o.username.Some?)
  }

  lemma FlaggedTaken(t: Option<seq<byte>>, rest: seq<byte>)
    requires t.Some? ==> |t.value| < 0x1_0000
    ensures TakeFlagged(t.Some?, OptionalStr(t) + rest) == Taken(t, |OptionalStr(t)|)
    ensures (OptionalStr(t) + rest)[|OptionalStr(t)|..] == rest
  {
    hide TakeStr16, Str16;
    if t.Some? {
      Str16Taken(t.value, rest);
    }
  }

  lemma ProtocolTaken(version: byte, rest: seq<byte>)
    requires version == 3 || version == 4
    ensures TakeProtocol(ConnectProtocol(version) + rest) == Taken(version, |ConnectProtocol(version)|)
    ensures (ConnectProtocol(version) + rest)[|ConnectProtocol(version)|..] == rest
  {
    hide TakeStr16, Str16;
    var name := if version == 3 then MQISDP else MQTT;
    var s := ConnectProtocol(version) + rest;
    assert s == Str16(name) + ([version] + rest);
    Str16Taken(name, [version] + rest);
    assert MQISDP[2] != MQTT[2];
  }

  lemma BitFields(c: nat, w: nat, q: nat, r: nat, p: nat, u: nat)
    requires c < 2 && w < 2 && q < 4 && r < 2 && p < 2 && u < 2
    ensures var flags := c * 2 + w * 4 + (q * 8 + r * 32) + p * 64 + u * 128;
            && flags % 2 == 0 && flags / 2 % 2 == c && flags / 4 % 2 == w && flags / 8 % 4 == q
            && flags / 32 % 2 == r && flags / 64 % 2 == p && flags / 128 == u && flags / 8 % 8 == q + 4 * r
  {
    var flags := c * 2 + w * 4 + (q * 8 + r * 32) + p * 64 + u * 128;
    assert flags / 2 == c + 2 * (w + 2 * (q + 4 * (r + 2 * (p + 2 * u))));
    assert flags / 4 == w + 2 * (q + 4 * (r + 2 * (p + 2 * u)));
    assert flags / 8 == q + 4 * (r + 2 * (p + 2 * u));
    assert flags / 32 == r + 2 * (p + 2 * u);
    assert flags / 64 == p + 2 * u;
    assert flags / 128 == u;
  }

  lemma FlagFields(o: ConnectOption)
    requires o.will_flag < 2
    ensures var flags := ConnectFlags(o);
            && flags % 2 == 0 && flags / 2 % 2 == o.clean_session % 2 && flags / 4 % 2 == o.will_flag
            && (o.will_flag > 0 ==> flags / 8 % 4 == o.will.qos % 4 && flags / 32 % 2 == o.will.retained % 2)
            && (flags / 64 % 2 == 1 <==> o.password.Some?) && (flags / 128 == 1 <==> o.username.Some?)
            && (flags / 128 == 0 <==> o.username.None?) && (o.will_flag == 0 ==> flags / 8 % 8 == 0)
  {
    var clean, q, r := o.clean_session % 2, o.will.qos % 4, o.will.retained % 2;
    var w := o.will_flag;
    BitFields(clean, w, if w > 0 then q else 0, if w > 0 then r else 0,
              if o.password.Some? then 1 else 0, if o.username.Some? then 1 else 0);
  }

  lemma WillTaken(o: ConnectOption, rest: seq<byte>)
    requires Sendable(o)
    ensures TakeWill(ConnectFlags(o), ConnectWill(o) + rest) == Taken(Carried(o).will, |ConnectWill(o)|)
    ensures (ConnectWill(o) + rest)[|ConnectWill(o)|..] == rest
  {
    hide TakeStr16, Str16, ConnectFlags;
    FlagFields(o);
    if o.will_flag > 0 {
      var message := Str16(o.will.message) + rest;
      assert ConnectWill(o) + rest == Str16(o.will.topic_name) + message;
      Str16Taken(o.will.topic_name, message);
      Str16Taken(o.will.message, rest);
    }
  }

  lemma PayloadReads(o: ConnectOption)
    requires Sendable(o)
    ensures ReadPayload(o.mqtt_version, ConnectFlags(o), o.keep_alive_interval,
                          Str16(o.client_id) + ConnectWill(o) + OptionalStr(o.username) + OptionalStr(o.password))
         == Some(Carried(o))
  {
    hide TakeStr16, TakeWill, TakeFlagged, Str16, ConnectFlags, ConnectWill, OptionalStr;
    FlagFields(o);
    var s3 := OptionalStr(o.password);
    var s2 := OptionalStr(o.username) + s3;
    var s1 := ConnectWill(o) + s2;
    assert Str16(o.client_id) + ConnectWill(o) + OptionalStr(o.username) + OptionalStr(o.password)
        == Str16(o.client_id) + s1;
    Str16Taken(o.client_id, s1);
    WillTaken(o, s2);
    FlaggedTaken(o.username, s3);
    FlaggedTaken(o.password, []);
    assert s3 + [] == s3;
  }

  lemma WordOfInt16(v: uint16)
    ensures Word(Int16(v)[0], Int16(v)[1]) == v
  {}

  lemma SendableReads(o: ConnectOption)
    requires Sendable(o)
    ensures ReadConnect(Frame(0x10, ConnectBody(o))) == Some(Carried(o))
  {
    hide TakeProtocol, ReadPayload, Str16, Int16, ConnectFlags, ConnectWill, OptionalStr, ConnectProtocol, Carried;
    var tail := Str16(o.client_id) + ConnectWill(o) + OptionalStr(o.username) + OptionalStr(o.password);
    var s := [ConnectFlags(o)] + Int16(o.keep_alive_interval) + tail;
    assert ConnectBody(o) == ConnectProtocol(o.mqtt_version) + s;
    ProtocolTaken(o.mqtt_version, s);
    FlagFields(o);
    WordOfInt16(o.keep_alive_interval);
    assert s[1] == Int16(o.keep_alive_interval)[0] && s[2] == Int16(o.keep_alive_interval)[1];
    assert s[3..] == tail;
    PayloadReads(o);
  }

  lemma ReadIsSendable(f: Frame)
    ensures ReadConnect(f).Some? ==> Sendable(ReadConnect(f).value)
  {
    hide TakeStr16;
    if ReadConnect(f).Some? {
      var used := TakeProtocol(f.body).used;
      var flags := f.body[used];
      assert flags / 64 % 2 == 1 ==> flags / 128 == 1;
    }
  }

  /** Every option a CONNECT carries is read back from it, exactly when the options can be put in one. */
  lemma ConnectReads(o: ConnectOption)
    ensures ReadConnect(Frame(0x10, ConnectBody(o))) == Some(Carried(o)) <==> Sendable(o)
  {
    hide ConnectBody, ReadConnect;
    if Sendable(o) {
      SendableReads(o);
    } else {
      ReadIsSendable(Frame(0x10, ConnectBody(o)));
    }
  }

  /** The values that sections 3.1.2.2, 3.1.2.6 and 3.1.3 allow in a CONNECT of MQTT 3.1.1. */
  predicate LawfulConnect(o: ConnectOption) {
    && o.mqtt_version == 4
    && Utf8(o.client_id) && (o.client_id == [] ==> o.clean_session == 1)
    && (o.will_flag > 0 ==> o.will.qos < 3 && Utf8(o.will.topic_name))
    && (o.username.Some? ==> Utf8(o.username.value))
  }

  function DecodeConnect(f: Frame): Option<ConnectOption> {
    var o := ReadConnect(f);
    if o.Some? && LawfulConnect(o.value) then o else None
  }

  /** A server takes a CONNECT of the client for what it is exactly when the options can be put in one, are
      for MQTT 3.1.1, ask for a will of QoS 0 to 2, name the client or start clean, and are text. */
  lemma ConnectDecodes(o: ConnectOption)
    ensures DecodeConnect(Frame(0x10, ConnectBody(o))) == Some(Carried(o)) <==>
              && Sendable(o) && o.mqtt_version == 4
              && Utf8(o.client_id) && (o.client_id == [] ==> o.clean_session % 2 == 1)
              && (o.will_flag > 0 ==> o.will.qos % 4 < 3 && Utf8(o.will.topic_name))
              && (o.username.Some? ==> Utf8(o.username.value))
  {
    hide ReadConnect, ConnectBody, Utf8;
    ConnectReads(o);
  }

  // ---- sections 3.8 and 3.10: SUBSCRIBE and UNSUBSCRIBE ----

  datatype Subscription = Subscription(filter: seq<byte>, qos: byte)

  function ReadSubscriptions(s: seq<byte>): Option<seq<Subscription>> {
    if s == [] then Some([])
    else
      match TakeStr16(s)
      case Nothing => None
      case Taken(filter, used) =>
        if used == |s| then None
        else
          match ReadSubscriptions(s[used + 1..])
          case None => None
          case Some(more) => Some([Subscription(filter, s[used])] + more)
  }

  function ReadFilters(s: seq<byte>): Option<seq<seq<byte>>>
    decreases |s|
  {
    if s == [] then Some([])
    else
      match TakeStr16(s)
      case Nothing => None
      case Taken(filter, used) =>
        if used == 0 then None
        else
          match ReadFilters(s[used..])
          case None => None
          case Some(more) => Some([filter] + more)
  }

  function Subscriptions(filters: seq<seq<byte>>, qos: seq<int>): seq<Subscription>
    requires |filters| == |qos|
  {
    seq(|filters|, i requires 0 <= i < |filters| => Subscription(filters[i], Low8(qos[i])))
  }

  lemma {:induction false} SubscribeFiltersFirst(filters: seq<seq<byte>>, qos: seq<int>)
    requires |filters| == |qos| > 0
    ensures SubscribeFilters(filters, qos)
         == Str16(filters[0]) + ([Low8(qos[0])] + SubscribeFilters(filters[1..], qos[1..]))
  {
    hide Str16, Low8;
    var n := |filters| - 1;
    if n > 0 {
      SubscribeFiltersFirst(filters[..n], qos[..n]);
      assert filters[..n][1..] == filters[1..][..n - 1] && qos[..n][1..] == qos[1..][..n - 1];
    }
  }

  lemma {:induction false} UnsubscribeFiltersFirst(filters: seq<seq<byte>>)
    requires |filters| > 0
    ensures UnsubscribeFilters(filters) == Str16(filters[0]) + UnsubscribeFilters(filters[1..])
  {
    hide Str16;
    var n := |filters| - 1;
    if n > 0 {
      UnsubscribeFiltersFirst(filters[..n]);
      assert filters[..n][1..] == filters[1..][..n - 1];
    }
  }

  lemma NoSubscriptionsRead()
    ensures ReadSubscriptions([]) == Some([])
  {}

  lemma OneSubscriptionRead(filter: seq<byte>, qos: byte, rest: seq<byte>)
    requires |filter| < 0x1_0000
    ensures ReadSubscriptions(Str16(filter) + ([qos] + rest))
         == match ReadSubscriptions(rest) case None => None case Some(more) => Some([Subscription(filter, qos)] + more)
  {
    hide Str16, TakeStr16;
    var s := Str16(filter) + ([qos] + rest);
    Str16Taken(filter, [qos] + rest);
    assert s[2 + |filter|] == qos && s[2 + |filter| + 1..] == rest;
  }

  lemma SubscriptionsFirst(filters: seq<seq<byte>>, qos: seq<int>)
    requires |filters| == |qos| > 0
    ensures Subscriptions(filters, qos)
         == [Subscription(filters[0], Low8(qos[0]))] + Subscriptions(filters[1..], qos[1..])
  {
    hide Low8;
  }

  lemma {:induction false} ShortSubscriptionsRead(filters: seq<seq<byte>>, qos: seq<int>)
    requires |filters| == |qos| && forall f :: f in filters ==> |f| < 0x1_0000
    ensures ReadSubscriptions(SubscribeFilters(filters, qos)) == Some(Subscriptions(filters, qos))
  {
    hide Str16, Low8, ReadSubscriptions;
    if |filters| > 0 {
      hide SubscribeFilters, Subscriptions;
      SubscribeFiltersFirst(filters, qos);
      ShortSubscriptionsRead(filters[1..], qos[1..]);
      OneSubscriptionRead(filters[0], Low8(qos[0]), SubscribeFilters(filters[1..], qos[1..]));
      SubscriptionsFirst(filters, qos);
    } else {
      NoSubscriptionsRead();
      assert Subscriptions(filters, qos) == [] && SubscribeFilters(filters, qos) == [];
    }
  }

  predicate ShortFilters(subs: seq<Subscription>) {
    forall i :: 0 <= i < |subs| ==> |subs[i].filter| < 0x1_0000
  }

  lemma {:induction false} ReadSubscriptionsAreShort(s: seq<byte>)
    ensures ReadSubscriptions(s).Some? ==> ShortFilters(ReadSubscriptions(s).value)
    decreases |s|
  {
    if s != [] && TakeStr16(s).Taken? && TakeStr16(s).used < |s| {
      ReadSubscriptionsAreShort(s[TakeStr16(s).used + 1..]);
    }
  }

  /** The fields of a SUBSCRIBE list read back exactly when every filter fits its length field. */
  lemma SubscriptionsRead(filters: seq<seq<byte>>, qos: seq<int>)
    requires |filters| == |qos|
    ensures ReadSubscriptions(SubscribeFilters(filters, qos)) == Some(Subscriptions(filters, qos))
        <==> forall f :: f in filters ==> |f| < 0x1_0000
  {
    if forall f :: f in filters ==> |f| < 0x1_0000 {
      ShortSubscriptionsRead(filters, qos);
    } else {
      var s := SubscribeFilters(filters, qos);
      ReadSubscriptionsAreShort(s);
      assert forall i :: 0 <= i < |filters| ==> Subscriptions(filters, qos)[i].filter == filters[i];
    }
  }

  lemma {:induction false} ShortFiltersRead(filters: seq<seq<byte>>)
    requires forall f :: f in filters ==> |f| < 0x1_0000
    ensures ReadFilters(UnsubscribeFilters(filters)) == Some(filters)
  {
    hide Str16, TakeStr16;
    if |filters| > 0 {
      UnsubscribeFiltersFirst(filters);
      ShortFiltersRead(filters[1..]);
      Str16Taken(filters[0], UnsubscribeFilters(filters[1..]));
      assert filters == [filters[0]] + filters[1..];
    }
  }

  predicate AllShort(filters: seq<seq<byte>>) {
    forall i :: 0 <= i < |filters| ==> |filters[i]| < 0x1_0000
  }

  lemma {:induction false} ReadFiltersAreShort(s: seq<byte>)
    ensures ReadFilters(s).Some? ==> AllShort(ReadFilters(s).value)
    decreases |s|
  {
    if s != [] && TakeStr16(s).Taken? && TakeStr16(s).used > 0 {
      ReadFiltersAreShort(s[TakeStr16(s).used..]);
    }
  }

  /** The fields of an UNSUBSCRIBE list read back exactly when every filter fits its length field. */
  lemma FiltersRead(filters: seq<seq<byte>>)
    ensures ReadFilters(UnsubscribeFilters(filters)) == Some(filters) <==> forall f :: f in filters ==> |f| < 0x1_0000
  {
    if forall f :: f in filters ==> |f| < 0x1_0000 {
      ShortFiltersRead(filters);
    } else {
      ReadFiltersAreShort(UnsubscribeFilters(filters));
    }
  }

  /** What sections 3.8.3 and 3.10.3 allow in a list: at least one entry, filters by section 4.7, and no
      QoS but 0, 1 and 2. */
  predicate LawfulSubscriptions(subs: seq<Subscription>) {
    subs != [] && forall i :: 0 <= i < |subs| ==> TopicFilter(subs[i].filter) && subs[i].qos <= 2
  }

  predicate LawfulFilters(filters: seq<seq<byte>>) {
    filters != [] && forall i :: 0 <= i < |filters| ==> TopicFilter(filters[i])
  }

  function DecodeSubscriptions(s: seq<byte>): Option<seq<Subscription>> {
    var subs := ReadSubscriptions(s);
    if subs.Some? && LawfulSubscriptions(subs.value) then subs else None
  }

  function DecodeFilters(s: seq<byte>): Option<seq<seq<byte>>> {
    var filters := ReadFilters(s);
    if filters.Some? && LawfulFilters(filters.value) then filters else None
  }

  /** A server takes a SUBSCRIBE list for what it is exactly when it is not empty, every filter is one and fits
      its length field, and every QoS byte is at most 2. */
  lemma SubscriptionsDecode(filters: seq<seq<byte>>, qos: seq<int>)
    requires |filters| == |qos|
    ensures DecodeSubscriptions(SubscribeFilters(filters, qos)) == Some(Subscriptions(filters, qos)) <==>
              && filters != []
              && forall i :: 0 <= i < |filters| ==>
                   |filters[i]| < 0x1_0000 && TopicFilter(filters[i]) && Low8(qos[i]) <= 2
  {
    hide SubscribeFilters, ReadSubscriptions, TopicFilter, Low8;
    var subs := Subscriptions(filters, qos);
    assert forall i :: 0 <= i < |filters| ==> subs[i] == Subscription(filters[i], Low8(qos[i]));
    SubscriptionsRead(filters, qos);
    if filters != [] && ShortFilters(subs) && LawfulSubscriptions(subs) {
      assert forall i :: 0 <= i < |filters| ==> |subs[i].filter| == |filters[i]|;
    }
  }

  lemma FiltersDecode(filters: seq<seq<byte>>)
    ensures DecodeFilters(UnsubscribeFilters(filters)) == Some(filters) <==>
              filters != [] && forall i :: 0 <= i < |filters| ==> |filters[i]| < 0x1_0000 && TopicFilter(filters[i])
  {
    hide UnsubscribeFilters, ReadFilters, TopicFilter;
    FiltersRead(filters);
  }

  // ---- the three requests together ----

  datatype Request =
    | Connect(options: ConnectOption)
    | Subscribe(id: uint16, subscriptions: seq<Subscription>)
    | Unsubscribe(id: uint16, filters: seq<seq<byte>>)

  function ReadRequest(f: Frame): Option<Request> {
    if f.header == 0x10 then
      match ReadConnect(f)
      case None => None
      case Some(o) => Some(Connect(o))
    else if |f.body| < 2 then None
    else if f.header == 0x82 then
      match ReadSubscriptions(f.body[2..])
      case None => None
      case Some(subs) => Some(Subscribe(Word(f.body[0], f.body[1]), subs))
    else if f.header == 0xA2 then
      match ReadFilters(f.body[2..])
      case None => None
      case Some(filters) => Some(Unsubscribe(Word(f.body[0], f.body[1]), filters))
    else None
  }

  predicate LawfulRequest(r: Request) {
    match r
    case Connect(o) => LawfulConnect(o)
    case Subscribe(id, subs) => id > 0 && LawfulSubscriptions(subs)
    case Unsubscribe(id, filters) => id > 0 && LawfulFilters(filters)
  }

  function DecodeRequest(f: Frame): Option<Request> {
    var r := ReadRequest(f);
    if r.Some? && LawfulRequest(r.value) then r else None
  }

  /** A request as the client hands it to a serializer. */
  datatype Call =
    | CallConnect(options: ConnectOption)
    | CallSubscribe(id: uint16, filters: seq<seq<byte>>, qos: seq<int>)
    | CallUnsubscribe(id: uint16, topics: seq<seq<byte>>)

  function HeaderOf(c: Call): byte {
    if c.CallConnect? then 0x10 else if c.CallSubscribe? then 0x82 else 0xA2
  }

  predicate Encodable(c: Call) {
    match c
    case CallConnect(o) => Sendable(o)
    case CallSubscribe(_, filters, qos) => |filters| == |qos| && forall f :: f in filters ==> |f| < 0x1_0000
    case CallUnsubscribe(_, topics) => forall f :: f in topics ==> |f| < 0x1_0000
  }

  function BodyOf(c: Call): seq<byte>
    requires Encodable(c)
  {
    match c
    case CallConnect(o) => ConnectBody(o)
    case CallSubscribe(id, filters, qos) => Int16(id) + SubscribeFilters(filters, qos)
    case CallUnsubscribe(id, topics) => Int16(id) + UnsubscribeFilters(topics)
  }

  /** The packet a serializer writes for a call. */
  function Encode(c: Call): seq<byte>
    requires Encodable(c)
  {
    match c
    case CallConnect(o) => ConnectPacket(o)
    case CallSubscribe(id, filters, qos) => SubscribePacket(id, filters, qos)
    case CallUnsubscribe(id, topics) => UnsubscribePacket(id, topics)
  }

  /** What a call asks the server for. */
  function Meaning(c: Call): Request
    requires Encodable(c)
  {
    match c
    case CallConnect(o) => Connect(Carried(o))
    case CallSubscribe(id, filters, qos) => Subscribe(id, Subscriptions(filters, qos))
    case CallUnsubscribe(id, topics) => Unsubscribe(id, topics)
  }

  lemma BodyReads(c: Call)
    requires Encodable(c)
    ensures ReadRequest(Frame(HeaderOf(c), BodyOf(c))) == Some(Meaning(c))
  {
    hide Int16, Word, ConnectBody, ReadConnect, SubscribeFilters, UnsubscribeFilters, ReadSubscriptions,
         ReadFilters, Subscriptions;
    var body := BodyOf(c);
    match c
    case CallConnect(o) => ConnectReads(o);
    case CallSubscribe(id, filters, qos) =>
      WordOfInt16(id);
      SubscriptionsRead(filters, qos);
      assert body[2..] == SubscribeFilters(filters, qos);
    case CallUnsubscribe(id, topics) =>
      WordOfInt16(id);
      FiltersRead(topics);
      assert body[2..] == UnsubscribeFilters(topics);
  }

  /** The server finds every field of a request and where the next packet starts; it takes the request
      exactly when its values are ones the standard allows. */
  lemma RequestDecodes(c: Call, rest: seq<byte>)
    requires Encodable(c) && |BodyOf(c)| <= MAX_REMAINING_LENGTH
    ensures var t := TakeFrame(Encode(c) + rest);
            && t.Taken? && t.used == |Encode(c)| && ReadRequest(t.value) == Some(Meaning(c))
            && DecodeRequest(t.value) == if LawfulRequest(Meaning(c)) then Some(Meaning(c)) else None
  {
    hide TakeFrame, ReadRequest, Meaning, LawfulRequest, ConnectBody, SubscribeFilters, UnsubscribeFilters,
         RemainingLength;
    BodyReads(c);
    FrameTaken(HeaderOf(c), BodyOf(c), rest);
    assert Encode(c) == Packet(HeaderOf(c), BodyOf(c));
  }

  /** Values the client's serializers take and the standard forbids: a will of QoS 3, the level of MQTT 3.1,
      a SUBSCRIBE with QoS 200, and one without filters. */
  lemma ForbiddenRequests()
    ensures var o := ConnectOption(4, [0x63], 60, 1, 1, WillOptions([0x74], [0x6D], 0, 3), None, None);
            Encodable(CallConnect(o)) && !LawfulRequest(Meaning(CallConnect(o)))
    ensures var o := ConnectOption(3, [0x63], 60, 1, 0, NO_WILL, None, None);
            Encodable(CallConnect(o)) && !LawfulRequest(Meaning(CallConnect(o)))
    ensures var c := CallSubscribe(1, [[0x74]], [200]); Encodable(c) && !LawfulRequest(Meaning(c))
    ensures var c := CallSubscribe(1, [], []); Encodable(c) && !LawfulRequest(Meaning(c))
  {
    assert Subscriptions([[0x74]], [200])[0] == Subscription([0x74], 200);
  }

  /** No two requests share an encoding, even as the front of a longer stream. */
  lemma EncodingIsInjective(c: Call, d: Call, rest: seq<byte>, more: seq<byte>)
    requires Encodable(c) && |BodyOf(c)| <= MAX_REMAINING_LENGTH
    requires Encodable(d) && |BodyOf(d)| <= MAX_REMAINING_LENGTH
    requires Encode(c) + rest == Encode(d) + more
    ensures Meaning(c) == Meaning(d) && rest == more
  {
    hide TakeFrame, ReadRequest, LawfulRequest, Meaning, Encode, BodyOf;
    RequestDecodes(c, rest);
    RequestDecodes(d, more);
    assert rest == (Encode(c) + rest)[|Encode(c)|..];
    assert more == (Encode(d) + more)[|Encode(d)|..];
  }
}
