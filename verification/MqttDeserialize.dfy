/** The deserializers: a byte buffer read through an advancing pointer. The array is the memory that may be
    read; an outcome of its own says when the source would read past it. */
module MqttDeserialize {
  import opened Common
  import opened MqttWire
  import opened MqttDecode
  import opened MqttSerialize

  datatype LengthResult = LengthOk(len: nat, at: nat) | LengthError(rc: int) | LengthOutside

  /** The length field that starts s, of a packet that must end inside s. */
  function LengthOf(s: seq<byte>): LengthResult {
    match TakeLength(s, 4)
    case Taken(v, c) => if c + v <= |s| then LengthOk(v, 1 + c) else LengthError(MQTT_ERR_SHORT_BUFFER)
    case Nothing =>
      if |s| >= 4 && 4 + ValueOf(s[..4]) <= |s| then LengthError(MQTT_ERR_INVALID_PACKET_TYPE)
      else LengthError(MQTT_ERR_SHORT_BUFFER)
  }

  /** A run that already overshoots the buffer does so however it goes on. */
  lemma LongerRun(s: seq<byte>, k: nat)
    requires k <= |s| && k <= 4 && forall i :: 0 <= i < k ==> s[i] >= 128
    ensures k + ValueOf(s[..k]) > |s| ==> LengthOf(s) == LengthError(MQTT_ERR_SHORT_BUFFER)
  {
    hide ValueOf, TakeLength;
    TakenIsRun(s, 4);
    var t := TakeLength(s, 4);
    if t.Taken? {
      assert k < t.used by {
        assert s[..t.used][t.used - 1] < 128;
      }
      assert s[..t.used][..k] == s[..k];
      ValueOfPrefix(s[..t.used], k);
    } else if |s| >= 4 {
      assert s[..4][..k] == s[..k];
      ValueOfPrefix(s[..4], k);
    }
  }

  /** One digit more: what the loop knows after reading c. */
  lemma DigitRead(s: seq<byte>, count: nat)
    requires count < |s| && count < 4
    requires forall i :: 0 <= i < count ==> s[i] >= 128
    ensures ValueOf(s[..count + 1]) == ValueOf(s[..count]) + s[count] % 128 * Pow128(count)
    ensures s[count] < 128 ==> TakeLength(s, 4) == Taken(ValueOf(s[..count + 1]), count + 1)
    ensures count + 1 + ValueOf(s[..count + 1]) > |s| ==> LengthOf(s) == LengthError(MQTT_ERR_SHORT_BUFFER)
  {
    assert s[..count + 1] == s[..count] + [s[count]];
    ValueOfSnoc(s[..count], s[count]);
    if s[count] < 128 {
      RunTaken(s, 4, count + 1);
    } else {
      LongerRun(s, count + 1);
    }
  }

  /** Nothing but digits saying more: no length, however many bytes are looked at. */
  lemma NoLength(s: seq<byte>)
    requires forall i :: 0 <= i < |s| && i < 4 ==> s[i] >= 128
    ensures TakeLength(s, 4) == Nothing
  {
    TakenIsRun(s, 4);
  }

  lemma ZeroDigit(len: nat, digit: nat, multiplier: nat)
    requires multiplier >= 1
    ensures 0 <= digit * multiplier && (len + digit * multiplier == 0 <==> len == 0 && digit == 0)
  {
    if digit > 0 {
      assert digit * multiplier >= multiplier;
    }
  }

  /** Every length byte read so far said "nothing, and more follows". */
  ghost predicate AllPadding(s: seq<byte>) {
    forall i :: 0 <= i < |s| ==> s[i] == 0x80
  }

  /** Reads the remaining length. The only read past buf_len comes after a run of bytes 0x80 that fills the
      buffer, and the byte it finds has no effect on the result. */
  method RemainingLengthDeserialize(buf: array<byte>, buf_len: nat) returns (r: LengthResult)
    requires 2 <= buf_len <= buf.Length
    ensures r == LengthOutside || r == LengthOf(buf[1..buf_len])
    ensures r == LengthOutside <==> buf_len == buf.Length <= 4 && AllPadding(buf[1..buf_len])
    ensures r == LengthOutside ==> LengthOf(buf[1..buf_len]) == LengthError(MQTT_ERR_SHORT_BUFFER)
  {
    hide ValueOf, TakeLength;
    ghost var s := buf[1..buf_len];
    var multiplier, count: nat, len: nat := 1, 0, 0;
    ValueOfNothing();
    assert s[..0] == [];
    while true
      invariant count <= 4 && count <= |s| && multiplier == Pow128(count) && len == ValueOf(s[..count])
      invariant forall i :: 0 <= i < count ==> s[i] >= 128
      invariant count > 0 ==> count + 1 + len <= buf_len
      invariant len == 0 <==> AllPadding(s[..count])
      decreases 4 - count
    {
      if count == 4 || count == |s| {
        NoLength(s);
        assert count == |s| ==> s[..count] == s;
      }
      count := count + 1;
      if count > 4 {
        return LengthError(MQTT_ERR_INVALID_PACKET_TYPE);
      }
      if count == buf.Length {
        return LengthOutside;
      }
      var c := buf[count];
      if count <= |s| {
        DigitRead(s, count - 1);
        assert s[..count] == s[..count - 1] + [c];
      }
      var digit: int := c % 128;
      ZeroDigit(len, digit, multiplier);
      len := len + digit * multiplier;
      multiplier := multiplier * 128;
      if buf_len < count + 1 + len {
        return LengthError(MQTT_ERR_SHORT_BUFFER);
      }
      if c < 128 {
        break;
      }
    }
    r := LengthOk(len, 1 + count);
  }

  /** A length is accepted exactly when a whole packet stands in the buffer. */
  lemma LengthOfFrame(s: seq<byte>)
    requires |s| > 0
    ensures var t, l := TakeFrame(s), LengthOf(s[1..]);
            && (t.Taken? <==> l.LengthOk?)
            && (t.Taken? ==> l.at + l.len == t.used && t.value == Frame(s[0], s[l.at..l.at + l.len]))
  {
    hide TakeLength, ValueOf;
  }

  datatype PublishResult =
    | PublishOk(flags: PublishFlags, packet_id: Option<uint16>, topic_at: nat, topic_len: nat, payload_at: nat,
                payload_len: int)
    | PublishError(rc: int)
    | PublishOutside

  method ReadInt(buf: array<byte>, ptr: nat) returns (v: Option<uint16>)
    ensures v == if ptr + 2 <= buf.Length then Some(Word(buf[ptr], buf[ptr + 1])) else None
  {
    if ptr + 2 > buf.Length {
      return None;
    }
    var hi: int := buf[ptr];
    return Some(256 * hi + buf[ptr + 1]);
  }

  /** The fields r points at, in the memory m. */
  ghost predicate Shows(r: PublishResult, m: seq<byte>, p: Publish) {
    && r.PublishOk? && r.flags == p.flags && r.packet_id == p.id
    && r.topic_at + r.topic_len <= |m| && m[r.topic_at..r.topic_at + r.topic_len] == p.topic
    && 0 <= r.payload_len && r.payload_at + r.payload_len <= |m|
    && m[r.payload_at..r.payload_at + r.payload_len] == p.payload
  }

  lemma SliceOfSlice(m: seq<byte>, a: nat, b: nat, c: nat, d: nat)
    requires a <= b <= |m| && c <= d <= b - a
    ensures m[a..b][c..d] == m[a + c..a + d]
  {
    var l, r := m[a..b][c..d], m[a + c..a + d];
    assert |l| == |r|;
    assert forall i :: 0 <= i < |l| ==> l[i] == m[a..b][c + i] == m[a + c + i] == r[i];
  }

  /** The topic stands in the packet when the length that leads it says so. */
  lemma TopicOf(m: seq<byte>, at: nat, len: nat)
    requires at + len <= |m| && at + 2 <= |m|
    ensures var body, end := m[at..at + len], at + 2 + Word(m[at], m[at + 1]);
            && (TakeStr16(body).Taken? <==> end <= at + len)
            && (end <= at + len ==>
                  TakeStr16(body) == Taken(m[at + 2..end], end - at) && body[end - at..] == m[end..at + len])
  {
    hide Word;
    var body, n := m[at..at + len], Word(m[at], m[at + 1]);
    if len >= 2 {
      assert body[0] == m[at] && body[1] == m[at + 1];
      if 2 + n <= len {
        SliceOfSlice(m, at, at + len, 2, 2 + n);
        SliceOfSlice(m, at, at + len, 2 + n, len);
      }
    }
  }

  /** Where the payload of a PUBLISH starts when its topic length stands at `at`. */
  function PayloadAt(m: seq<byte>, header: byte, at: nat): nat
    requires at + 2 <= |m|
  {
    at + 2 + Word(m[at], m[at + 1]) + if FlagsOf(header).qos == 0 then 0 else 2
  }

  /** The fields of the PUBLISH whose body is a stretch of the memory. */
  lemma PublishAt(m: seq<byte>, header: byte, at: nat, len: nat)
    requires header / 16 == 3 && at + len <= |m|
    ensures at + 2 > |m| ==> ReadPublish(Frame(header, m[at..at + len])) == None
    ensures at + 2 <= |m| ==>
              var n, ptr := Word(m[at], m[at + 1]), PayloadAt(m, header, at);
              ReadPublish(Frame(header, m[at..at + len])) ==
              if n == 0 || ptr > at + len then None
              else Some(Publish(FlagsOf(header),
                                if FlagsOf(header).qos == 0 then None else Some(Word(m[ptr - 2], m[ptr - 1])),
                                m[at + 2..at + 2 + n], m[ptr..at + len]))
  {
    hide Word, FlagsOf;
    if at + 2 <= |m| {
      TopicOf(m, at, len);
      var end := at + 2 + Word(m[at], m[at + 1]);
      if end + 2 <= at + len {
        SliceOfSlice(m, end, at + len, 2, at + len - end);
      }
    }
  }

  /** What becomes of a PUBLISH whose body stands in m from `at` to `end`, by the bytes alone: a read outside m
      when the topic length or the packet id would not stand in it, the type error for an empty topic, and
      otherwise the fields, with whatever payload length is left up to `end`. */
  ghost predicate Behaves(r: PublishResult, m: seq<byte>, header: byte, at: nat, end: nat) {
    if at + 2 > |m| then r == PublishOutside
    else
      var n, qos, ptr := Word(m[at], m[at + 1]), FlagsOf(header).qos, PayloadAt(m, header, at);
      && (r == PublishError(MQTT_ERR_INVALID_PACKET_TYPE) <==> n == 0)
      && (r == PublishOutside <==> n > 0 && qos > 0 && ptr > |m|)
      && (r.PublishOk? <==> n > 0 && (qos == 0 || ptr <= |m|))
      && (r.PublishOk? ==>
            r == PublishOk(FlagsOf(header), if qos == 0 then None else Some(Word(m[ptr - 2], m[ptr - 1])),
                           at + 2, n, ptr, end - ptr))
  }

  /** The bytes of a packet that is accepted although it is malformed: the topic or the id runs past the end of
      the packet and stays inside the memory where it is read. */
  predicate Overruns(m: seq<byte>, header: byte, at: nat, end: nat) {
    && at + 2 <= |m| && Word(m[at], m[at + 1]) > 0 && PayloadAt(m, header, at) > end
    && (FlagsOf(header).qos == 0 || PayloadAt(m, header, at) <= |m|)
  }

  lemma NegativeIsOverrun(r: PublishResult, m: seq<byte>, header: byte, at: nat, end: nat)
    requires Behaves(r, m, header, at, end)
    ensures r.PublishOk? && r.payload_len < 0 <==> Overruns(m, header, at, end)
  {
    hide Word, FlagsOf, PayloadAt;
  }

  /** What is left to read once the fixed header is done: the topic length is not checked against the
      remaining length, so a field that overruns the packet shows only as a negative payload length. */
  method PublishVariableHeader(buf: array<byte>, header: byte, at: nat, len: nat) returns (r: PublishResult)
    requires header / 16 == 3 && at + len <= buf.Length
    ensures var p := ReadPublish(Frame(header, buf[at..at + len]));
            && (p.Some? <==> r.PublishOk? && r.payload_len >= 0)
            && (p.Some? ==> Shows(r, buf[..], p.value) && r.payload_at + r.payload_len == at + len)
            && (r.PublishError? ==>
                  && r.rc == MQTT_ERR_INVALID_PACKET_TYPE && at + 2 <= buf.Length && Word(buf[at], buf[at + 1]) == 0)
    ensures Behaves(r, buf[..], header, at, at + len)
    ensures r.PublishOk? && r.payload_len < 0 <==> Overruns(buf[..], header, at, at + len)
  {
    hide Word, ReadPublish, Overruns;
    var flags := PublishFlags(header / 8 % 2, header / 2 % 4, header % 2);
    assert buf[..][at..at + len] == buf[at..at + len];
    PublishAt(buf[..], header, at, len);
    var topic_len := ReadInt(buf, at);
    if topic_len.None? {
      r := PublishOutside;
      NegativeIsOverrun(r, buf[..], header, at, at + len);
      return;
    }
    if topic_len.value == 0 {
      r := PublishError(MQTT_ERR_INVALID_PACKET_TYPE);
      NegativeIsOverrun(r, buf[..], header, at, at + len);
      return;
    }
    var ptr: nat := at + 2 + topic_len.value;
    var packet_id: Option<uint16> := None;
    if flags.qos > 0 {
      packet_id := ReadInt(buf, ptr);
      if packet_id.None? {
        r := PublishOutside;
        NegativeIsOverrun(r, buf[..], header, at, at + len);
        return;
      }
      ptr := ptr + 2;
    }
    assert ptr == PayloadAt(buf[..], header, at);
    r := PublishOk(flags, packet_id, at + 2, topic_len.value, ptr, len - (ptr - at));
    NegativeIsOverrun(r, buf[..], header, at, at + len);
  }

  /** What the client does not look at in a PUBLISH it receives. */
  predicate Unchecked(p: Publish) {
    p.flags.qos == 3 || (p.flags.qos == 0 && p.flags.dup == 1) || p.id == Some(0) || !TopicName(p.topic)
  }

  lemma UncheckedIsUnlawful(f: Frame)
    ensures var p := ReadPublish(f); p.Some? ==> (Unchecked(p.value) <==> !LawfulPublish(p.value))
  {
    hide TopicName, TakeStr16;
  }

  /** On every buffer, a result that is accepted with a payload length that is not negative shows the fields the
      standard reads. It is given for every packet the standard accepts, and otherwise exactly for those whose
      fields read but hold what the client leaves unchecked: QoS 3, a duplicate of QoS 0, an id of 0, a topic that
      is not a name. A packet whose fields do not read is accepted all the same, with a negative payload length,
      exactly when it overruns inside the memory. */
  method PublishDeserialize(buf: array<byte>, buf_len: nat) returns (r: PublishResult)
    requires buf_len <= buf.Length
    ensures buf_len < 2 ==> r == PublishError(MQTT_ERR_SHORT_BUFFER)
    ensures buf_len >= 2 && buf[0] / 16 != Nibble(PUBLISH) ==> r == PublishError(MQTT_ERR_INVALID_PACKET_TYPE)
    ensures buf_len >= 2 && buf[0] / 16 == Nibble(PUBLISH) ==>
              match TakeFrame(buf[..buf_len])
              case Nothing =>
                && LengthOf(buf[1..buf_len]).LengthError?
                && r == if buf_len == buf.Length <= 4 && AllPadding(buf[1..buf_len]) then PublishOutside
                        else PublishError(LengthOf(buf[1..buf_len]).rc)
              case Taken(f, used) =>
                var p := ReadPublish(f);
                && used >= |f.body| && Behaves(r, buf[..], buf[0], used - |f.body|, used)
                && (r.PublishOk? && r.payload_len < 0 <==> Overruns(buf[..], buf[0], used - |f.body|, used))
                && (r.PublishOk? && r.payload_len >= 0 <==>
                      DecodePublish(f).Some? || (p.Some? && Unchecked(p.value)))
                && (r.PublishOk? && r.payload_len >= 0 <==> p.Some?)
                && (p.Some? ==> Shows(r, buf[..], p.value) && r.payload_at + r.payload_len == used)
  {
    hide TopicName, TakeFrame, ReadPublish, LengthOf, Shows, Behaves, Overruns, AllPadding;
    if buf_len < 2 {
      return PublishError(MQTT_ERR_SHORT_BUFFER);
    }
    var header := buf[0];
    if header / 16 != 3 {
      return PublishError(MQTT_ERR_INVALID_PACKET_TYPE);
    }
    var l := RemainingLengthDeserialize(buf, buf_len);
    ghost var s := buf[..buf_len];
    assert s[1..] == buf[1..buf_len];
    LengthOfFrame(s);
    match l {
      case LengthOutside => return PublishOutside;
      case LengthError(rc) => return PublishError(rc);
      case LengthOk(len, at) =>
        assert s[at..at + len] == buf[at..at + len];
        r := PublishVariableHeader(buf, header, at, len);
        UncheckedIsUnlawful(Frame(header, buf[at..at + len]));
    }
  }

  lemma PacketInFront(packet: seq<byte>, m: seq<byte>, buf_len: nat)
    requires |packet| <= buf_len <= |m| && packet == m[..|packet|]
    ensures m[..buf_len] == packet + m[|packet|..buf_len]
  {}

  /** What PublishSerialize writes, PublishDeserialize reads: the same flags, topic, payload and, above QoS 0,
      packet id. */
  method PublishThereAndBack(buf: array<byte>, buf_len: nat, flags: PublishFlags, packet_id: uint16,
                             topic: seq<byte>, payload: seq<byte>) returns (r: PublishResult)
    requires |PublishBody(flags, packet_id, topic, payload)| <= MAX_REMAINING_LENGTH
    requires |PublishBody(flags, packet_id, topic, payload)| + 5 <= buf_len <= buf.Length
    requires 0 < |topic| < 0x1_0000 && (flags.qos > 0 ==> flags.qos % 4 > 0)
    modifies buf
    ensures Shows(r, buf[..], Publish(FlagBits(flags), if flags.qos > 0 then Some(packet_id) else None, topic, payload))
  {
    hide Shows, TopicName, Behaves, Overruns, TakeFrame, ReadPublish, PublishHeader, PublishBody, FlagBits, LengthOf;
    ghost var packet := PublishPacket(flags, packet_id, topic, payload);
    ghost var body := PublishBody(flags, packet_id, topic, payload);
    var n := PublishSerialize(buf, buf_len, flags, packet_id, topic, payload);
    PacketInFront(packet, buf[..], buf_len);
    FrameTaken(PublishHeader(flags), body, buf[|packet|..buf_len]);
    PublishReads(flags, packet_id, topic, payload);
    HeaderFlags(flags);
    r := PublishDeserialize(buf, buf_len);
  }

  /** Remaining length 3 and topic length 9. */
  const OVERRUN: seq<byte> := [0x30, 3, 0, 9, 0, 0, 0, 0, 0, 0, 0, 0, 0, 0, 0, 0, 0, 0, 0, 0]

  lemma OverrunFrame()
    ensures TakeFrame(OVERRUN[..5]) == Taken(Frame(0x30, [0, 9, 0]), 5)
  {
    var s := OVERRUN[..5];
    assert s == [0x30, 3, 0, 9, 0];
    assert TakeLength(s[1..], 4) == Taken(3, 1);
    assert s[2..5] == [0, 9, 0];
  }

  /** A packet of five bytes whose topic would end at the thirteenth is accepted, with a payload of length -8. */
  method OverrunIsAccepted() returns (r: PublishResult)
    ensures r == PublishOk(PublishFlags(0, 0, 0), None, 4, 9, 13, -8)
  {
    hide DecodePublish, ReadPublish, TakeFrame, LengthOf, TopicName;
    OverrunFrame();
    var buf := new byte[20](i requires 0 <= i < 20 => OVERRUN[i]);
    assert buf[..] == OVERRUN && buf[..5] == OVERRUN[..5];
    r := PublishDeserialize(buf, 5);
    assert PayloadAt(OVERRUN, 0x30, 2) == 13;
  }

  const QOS_THREE: seq<byte> := [0x36, 5, 0, 1, 0x61, 0, 5]

  lemma QosThreeReads()
    ensures TakeFrame(QOS_THREE) == Taken(Frame(0x36, QOS_THREE[2..]), 7)
    ensures ReadPublish(Frame(0x36, QOS_THREE[2..])) == Some(Publish(PublishFlags(0, 3, 0), Some(5), [0x61], []))
    ensures DecodePublish(Frame(0x36, QOS_THREE[2..])) == None
  {
    assert TakeLength(QOS_THREE[1..], 4) == Taken(5, 1);
    assert QOS_THREE[2..7] == QOS_THREE[2..];
    PublishAt(QOS_THREE, 0x36, 2, 5);
    assert QOS_THREE[4..5] == [0x61];
  }

  /** A PUBLISH with both QoS bits set, which section 3.3.1.2 has every receiver refuse, is accepted. */
  method QosThreeIsAccepted() returns (r: PublishResult)
    ensures DecodePublish(Frame(0x36, QOS_THREE[2..])) == None
    ensures r.PublishOk? && r.flags.qos == 3 && r.packet_id == Some(5) && r.payload_len == 0
  {
    hide DecodePublish, ReadPublish, TakeFrame, LengthOf, TopicName;
    QosThreeReads();
    var buf := new byte[7](i requires 0 <= i < 7 => QOS_THREE[i]);
    assert buf[..7] == buf[..] == QOS_THREE;
    r := PublishDeserialize(buf, 7);
  }

  /** NullWrite: flags written through a null pointer. */
  datatype PubackResult = PubackOk(packet_id: uint16) | PubackError(rc: int) | PubackOutside | NullWrite

  /** Reads the packet id of a PUBACK, whose remaining length is not checked to be 2. The type check stores the
      flags of a PUBLISH before it compares the types, and there is nowhere to store them here. */
  method PubackDeserialize(buf: array<byte>, buf_len: nat) returns (r: PubackResult)
    requires buf_len <= buf.Length
    ensures buf_len < 2 ==> r == PubackError(MQTT_ERR_SHORT_BUFFER)
    ensures r == NullWrite <==> buf_len >= 2 && buf[0] / 16 == Nibble(PUBLISH)
    ensures buf_len >= 2 && buf[0] / 16 !in {Nibble(PUBLISH), Nibble(PUBACK)} ==>
              r == PubackError(MQTT_ERR_INVALID_PACKET_TYPE)
    ensures buf_len >= 2 && buf[0] / 16 == Nibble(PUBACK) ==>
              match TakeFrame(buf[..buf_len])
              case Nothing =>
                && LengthOf(buf[1..buf_len]).LengthError?
                && r == if buf_len == buf.Length <= 4 && AllPadding(buf[1..buf_len]) then PubackOutside
                        else PubackError(LengthOf(buf[1..buf_len]).rc)
              case Taken(f, used) =>
                && used >= |f.body|
                && var at := used - |f.body|;
                && r == (if at + 2 <= buf.Length then PubackOk(Word(buf[at], buf[at + 1])) else PubackOutside)
                && (|f.body| >= 2 ==> r == PubackOk(Word(f.body[0], f.body[1])))
  {
    hide TakeFrame, LengthOf;
    if buf_len < 2 {
      return PubackError(MQTT_ERR_SHORT_BUFFER);
    }
    if buf[0] / 16 == 3 {
      return NullWrite;
    }
    if buf[0] / 16 != 4 {
      return PubackError(MQTT_ERR_INVALID_PACKET_TYPE);
    }
    var l := RemainingLengthDeserialize(buf, buf_len);
    ghost var s := buf[..buf_len];
    assert s[1..] == buf[1..buf_len];
    LengthOfFrame(s);
    match l {
      case LengthOutside => return PubackOutside;
      case LengthError(rc) => return PubackError(rc);
      case LengthOk(len, at) =>
        assert s[at..at + len] == buf[at..at + len];
        var id := ReadInt(buf, at);
        return if id.Some? then PubackOk(id.value) else PubackOutside;
    }
  }
}
