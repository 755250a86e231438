/** Framing packets out of the network stream, a read at a time. */
module MqttStream {
  import opened Common
  import opened MqttWire
  import opened MqttDecode
  import opened MqttSerialize

  const QCLOUD_RET_SUCCESS := 0
  const QCLOUD_ERR_FAILURE := -1001
  const QCLOUD_ERR_MQTT_NOTHING_TO_READ := -109
  const QCLOUD_ERR_MQTT_PACKET_READ := -110
  const QCLOUD_ERR_BUF_TOO_SHORT := -119
  const QCLOUD_ERR_TCP_READ_TIMEOUT := -604
  const QCLOUD_ERR_TCP_NOTHING_TO_READ := -609
  const QCLOUD_ERR_SSL_NOTHING_TO_READ := -709

  /** The codes of the network layer: TCP from -601 to -609, TLS from -701 to -709. */
  type errcode = rc: int | -800 < rc < -600 witness -604

  /** What one read of the network does: hand over at most so many bytes (at least one, when there is one), or
      fail and hand over none. */
  datatype Step = Give(most: nat) | Fail(rc: errcode)

  predicate NoFailure(plan: seq<Step>) {
    forall i :: 0 <= i < |plan| ==> plan[i].Give?
  }

  function Min(a: nat, b: nat): nat {
    if a < b then a else b
  }

  function Max(a: nat, b: nat): nat {
    if a < b then b else a
  }

  /** The return code of a read of len bytes, and how many it hands over. Past the plan, reads are prompt:
      they hand over all they are asked for that has arrived. */
  function Dealt(stream: seq<byte>, plan: seq<Step>, len: nat): (d: (int, nat))
    ensures d.1 <= len && d.1 <= |stream| && (d.0 != 0 ==> d.1 == 0) && (d.0 == 0 && len > 0 ==> d.1 > 0)
  {
    if plan != [] && plan[0].Fail? then (plan[0].rc, 0)
    else if stream == [] then (QCLOUD_ERR_TCP_NOTHING_TO_READ, 0)
    else
      var most := if plan == [] then len else if plan[0].most == 0 then 1 else plan[0].most;
      (0, Min(len, Min(|stream|, most)))
  }

  /** The connection: the bytes not read yet, and how the reads to come will go. */
  class Network {
    var stream: seq<byte>
    var plan: seq<Step>

    method Read(buf: array<byte>, at: nat, len: nat) returns (rc: int, read_len: nat)
      requires 0 < len && at + len <= buf.Length
      modifies this, buf
      ensures (rc, read_len) == Dealt(old(stream), old(plan), len)
      ensures stream == old(stream)[read_len..]
      ensures plan == if old(plan) == [] then [] else old(plan)[1..]
      ensures buf[..] == Put(old(buf[..]), at, old(stream)[..read_len])
    {
      rc, read_len := Dealt(stream, plan, len).0, Dealt(stream, plan, len).1;
      forall i | 0 <= i < read_len {
        buf[at + i] := stream[i];
      }
      stream := stream[read_len..];
      plan := if plan == [] then [] else plan[1..];
    }
  }

  /** The bytes a discard takes from a prompt network. */
  function Discarded(rem_len: nat, size: nat, available: nat): nat {
    Min(if rem_len >= size then rem_len else size, available)
  }

  /** What a read of one packet does on a prompt network: its return code and the bytes it takes. */
  function Prompt(stream: seq<byte>, size: nat): (r: (int, nat))
    ensures r.1 <= |stream|
  {
    if stream == [] then (QCLOUD_ERR_MQTT_NOTHING_TO_READ, 0)
    else
      match TakeLength(stream[1..], 4)
      case Nothing =>
        if |stream| < 5 then (QCLOUD_ERR_FAILURE, |stream|) else (QCLOUD_ERR_MQTT_PACKET_READ, 5)
      case Taken(rem_len, c) =>
        var left := |stream| - 1 - c;
        if 1 + c + rem_len >= size then (QCLOUD_ERR_BUF_TOO_SHORT, 1 + c + Discarded(rem_len, size, left))
        else if rem_len <= left then (QCLOUD_RET_SUCCESS, 1 + c + rem_len)
        else (if left == 0 then QCLOUD_ERR_TCP_NOTHING_TO_READ else QCLOUD_ERR_TCP_READ_TIMEOUT, |stream|)
  }

  /** From s to rest went one packet, and the buffer m holds it. */
  ghost predicate Delivered(s: seq<byte>, rest: seq<byte>, m: seq<byte>, packet_len: nat) {
    var t := TakeFrame(s);
    && t.Taken? && t.used == packet_len < |m| && rest == s[packet_len..] && m[..packet_len] == s[..packet_len]
  }

  predicate Suffix(rest: seq<byte>, s: seq<byte>) {
    |rest| <= |s| && rest == s[|s| - |rest|..]
  }

  /** A packet too long for the buffer stands first in s. Unless a read failed or the bytes ran out it has gone,
      and nothing after it when its body is at least the buffer size or it was all there was. */
  ghost predicate Skipped(s: seq<byte>, rest: seq<byte>, size: nat, unfailing: bool) {
    && |s| > 0
    && var t := TakeLength(s[1..], 4);
    && t.Taken? && 1 + t.used + t.value >= size
    && (unfailing && |s| >= 1 + t.used + t.value ==>
          && |rest| + 1 + t.used + t.value <= |s|
          && (t.value >= size || |s| == 1 + t.used + t.value ==> |rest| + 1 + t.used + t.value == |s|))
  }

  function Bytes(f: Frame): seq<byte> {
    Packet(f.header, f.body)
  }

  function Joined(packets: seq<Frame>): seq<byte> {
    if packets == [] then [] else Bytes(packets[0]) + Joined(packets[1..])
  }

  /** Packets whose length the standard allows. */
  predicate Framed(packets: seq<Frame>) {
    forall p :: p in packets ==> |p.body| <= MAX_REMAINING_LENGTH
  }

  /** Too long for the buffer although its body is not. */
  predicate Straddles(p: Frame, size: nat) {
    |p.body| < size <= |Bytes(p)|
  }

  /** Packet k may take some of the packets behind it along. */
  predicate Derails(packets: seq<Frame>, k: nat, size: nat)
    requires k < |packets|
  {
    Straddles(packets[k], size) && k + 1 < |packets|
  }

  /** The packets the buffer can hold, as bytes. */
  function Kept(packets: seq<Frame>, size: nat): seq<seq<byte>> {
    if packets == [] then []
    else
      var n := |packets| - 1;
      Kept(packets[..n], size) + (if |Bytes(packets[n])| < size then [Bytes(packets[n])] else [])
  }

  lemma KeptNothing(packets: seq<Frame>, size: nat)
    ensures Kept(packets[..0], size) == []
  {}

  lemma FirstPacket(p: Frame, rest: seq<byte>, size: nat)
    requires |p.body| <= MAX_REMAINING_LENGTH
    ensures var s, w := Bytes(p) + rest, |Bytes(p)|;
            var c := w - 1 - |p.body|;
            && 1 <= c && TakeFrame(s) == Taken(p, w) && s[..w] == Bytes(p) && s[w..] == rest
            && TakeLength(s[1..], 4) == Taken(|p.body|, c)
            && Prompt(s, size).0 == (if w < size then QCLOUD_RET_SUCCESS else QCLOUD_ERR_BUF_TOO_SHORT)
  {
    hide TakeLength, TakeFrame, RemainingLength, Discarded;
    FrameTaken(p.header, p.body, rest);
    var n := RemainingLength(|p.body|);
    assert (Bytes(p) + rest)[1..] == n + (p.body + rest);
    LengthTaken(|p.body|, p.body + rest, 4);
    WidthBound(|p.body|);
  }

  /** What a read finds at the next boundary. */
  lemma NextPacket(packets: seq<Frame>, k: nat, size: nat)
    requires k <= |packets| && Framed(packets)
    ensures k == |packets| ==>
              && Joined(packets[k..]) == [] && TakeFrame([]).Nothing?
              && Prompt([], size) == (QCLOUD_ERR_MQTT_NOTHING_TO_READ, 0)
    ensures k < |packets| ==>
              var s, w := Joined(packets[k..]), |Bytes(packets[k])|;
              var c := w - 1 - |packets[k].body|;
              && 1 <= c && w <= |s| && TakeFrame(s) == Taken(packets[k], w) && s[..w] == Bytes(packets[k])
              && TakeLength(s[1..], 4) == Taken(|packets[k].body|, c)
              && s[w..] == Joined(packets[k + 1..])
              && (|packets[k].body| < size <= w && s[w..] != [] ==> Derails(packets, k, size))
              && Prompt(s, size).0 == (if w < size then QCLOUD_RET_SUCCESS else QCLOUD_ERR_BUF_TOO_SHORT)
              && Kept(packets[..k + 1], size) == Kept(packets[..k], size) + if w < size then [s[..w]] else []
  {
    if k < |packets| {
      hide TakeLength, TakeFrame, RemainingLength, Prompt;
      var p, rest := packets[k], Joined(packets[k + 1..]);
      assert packets[k..][1..] == packets[k + 1..] && packets[..k + 1][..k] == packets[..k];
      assert p in packets;
      FirstPacket(p, rest, size);
    }
  }

  /** How far a reader of these packets is: in step behind the first `passed`, or lost behind the last of them. */
  ghost predicate Along(packets: seq<Frame>, passed: nat, lost: bool, got: seq<seq<byte>>, stream: seq<byte>,
                        size: nat, unfailing: bool) {
    && passed <= |packets|
    && if lost then
         && 0 < passed && Kept(packets[..passed], size) <= got && |Bytes(packets[passed - 1])| >= size
         && (unfailing ==> Derails(packets, passed - 1, size))
       else got == Kept(packets[..passed], size) && stream == Joined(packets[passed..])
  }

  lemma AlongIs(packets: seq<Frame>, passed: nat, lost: bool, got: seq<seq<byte>>, stream: seq<byte>, size: nat,
                unfailing: bool)
    requires Along(packets, passed, lost, got, stream, size, unfailing)
    ensures passed <= |packets|
    ensures !lost ==> got == Kept(packets[..passed], size) && stream == Joined(packets[passed..])
    ensures lost ==>
              && 0 < passed && Kept(packets[..passed], size) <= got && |Bytes(packets[passed - 1])| >= size
              && (unfailing ==> Derails(packets, passed - 1, size))
  {}

  lemma AlongStart(packets: seq<Frame>, size: nat, unfailing: bool)
    ensures Along(packets, 0, false, [], Joined(packets), size, unfailing)
  {
    assert packets[0..] == packets;
    KeptNothing(packets, size);
  }

  lemma DeliveredIs(s: seq<byte>, rest: seq<byte>, m: seq<byte>, packet_len: nat)
    requires Delivered(s, rest, m, packet_len)
    ensures packet_len <= |s| && packet_len < |m| && m[..packet_len] == s[..packet_len] && |rest| == |s| - packet_len
  {}

  lemma AlongDelivered(packets: seq<Frame>, passed: nat, lost: bool, got: seq<seq<byte>>, s: seq<byte>,
                       rest: seq<byte>, m: seq<byte>, packet_len: nat, unfailing: bool)
    requires Framed(packets) && Along(packets, passed, lost, got, s, |m|, unfailing)
    requires Delivered(s, rest, m, packet_len) && packet_len <= |m|
    ensures !lost ==> passed < |packets|
    ensures Along(packets, if lost then passed else passed + 1, lost, got + [m[..packet_len]], rest, |m|, unfailing)
  {
    hide Joined, Framed, Kept, TakeFrame, TakeLength, Prompt;
    if !lost {
      NextPacket(packets, passed, |m|);
    }
  }

  lemma SkippedStill(s: seq<byte>, rest: seq<byte>, size: nat, unfailing: bool, unfailing': bool)
    requires Skipped(s, rest, size, unfailing) && (unfailing' ==> unfailing)
    ensures Skipped(s, rest, size, unfailing')
  {}

  lemma EqualBySize(rest: seq<byte>, s: seq<byte>, w: nat)
    requires Suffix(rest, s) && w <= |s| && |rest| == |s| - w
    ensures rest == s[w..]
  {}

  lemma AlongSkipped(packets: seq<Frame>, passed: nat, lost: bool, got: seq<seq<byte>>, s: seq<byte>,
                     rest: seq<byte>, size: nat, unfailing: bool)
    requires Framed(packets) && Along(packets, passed, lost, got, s, size, unfailing)
    requires Skipped(s, rest, size, unfailing) && Suffix(rest, s)
    ensures lost ==> Along(packets, passed, lost, got, rest, size, unfailing)
    ensures !lost ==>
              && passed < |packets|
              && Along(packets, passed + 1, rest != Joined(packets[passed + 1..]), got, rest, size, unfailing)
  {
    hide Joined, Framed, Kept, TakeFrame, TakeLength, Prompt;
    if !lost {
      NextPacket(packets, passed, size);
      var w := |Bytes(packets[passed])|;
      if |rest| + w == |s| {
        EqualBySize(rest, s, w);
      }
    }
  }

  // ---- any number of reads on a prompt network ----

  datatype Reading = Reading(rc: int, got: seq<seq<byte>>, stream: seq<byte>)

  /** One read more. */
  function Onward(r: Reading, size: nat): Reading {
    if r.rc != 0 then r
    else
      var (rc, taken) := Prompt(r.stream, size);
      var rest := r.stream[taken..];
      if rc == QCLOUD_RET_SUCCESS then Reading(0, r.got + [r.stream[..taken]], rest)
      else if rc in {QCLOUD_ERR_BUF_TOO_SHORT, QCLOUD_ERR_MQTT_NOTHING_TO_READ} then Reading(0, r.got, rest)
      else Reading(rc, r.got, rest)
  }

  /** What n reads get from any stream, and leave of it. */
  function Reads(stream: seq<byte>, size: nat, n: nat): Reading {
    if n == 0 then Reading(0, [], stream) else Onward(Reads(stream, size, n - 1), size)
  }

  lemma ReadsNothing(stream: seq<byte>, size: nat)
    ensures Reads(stream, size, 0) == Reading(0, [], stream)
  {}

  lemma ReadsOneMore(stream: seq<byte>, size: nat, i: nat, got: seq<seq<byte>>, s: seq<byte>, rc: int, rest: seq<byte>)
    requires Reads(stream, size, i) == Reading(0, got, s)
    requires Suffix(rest, s) && (rc, |s| - |rest|) == Prompt(s, size)
    ensures Reads(stream, size, i + 1)
         == Reading(if rc in {QCLOUD_ERR_BUF_TOO_SHORT, QCLOUD_ERR_MQTT_NOTHING_TO_READ} then 0 else rc,
                    if rc == QCLOUD_RET_SUCCESS then got + [s[..|s| - |rest|]] else got, rest)
  {
    hide Prompt;
  }

  lemma {:induction false} ReadsStopped(stream: seq<byte>, size: nat, i: nat, n: nat)
    requires i <= n && Reads(stream, size, i).rc != 0
    ensures Reads(stream, size, n) == Reads(stream, size, i)
    decreases n
  {
    if i < n {
      ReadsStopped(stream, size, i, n - 1);
    }
  }

  lemma FitsExactly(s: seq<byte>, size: nat)
    requires TakeFrame(s).Taken? && TakeFrame(s).used < size
    ensures Prompt(s, size) == (QCLOUD_RET_SUCCESS, TakeFrame(s).used)
  {
    hide TakeLength;
  }

  /** A packet too long for the buffer that stands whole in the stream takes with it what its body is short of the
      buffer size from the bytes behind it: it alone goes exactly when its body has at least the size of the buffer
      or nothing stands behind it. */
  lemma SkipsExactly(s: seq<byte>, size: nat)
    requires TakeFrame(s).Taken? && TakeFrame(s).used >= size
    ensures var (rc, taken), t := Prompt(s, size), TakeFrame(s);
            && rc == QCLOUD_ERR_BUF_TOO_SHORT
            && taken == t.used + (if |t.value.body| >= size then 0 else Min(size - |t.value.body|, |s| - t.used))
            && (taken == t.used <==> |t.value.body| >= size || |s| == t.used)
  {
    hide TakeLength;
  }

  /** A body of 4 bytes and a buffer of 5: alone the packet goes exactly, in front of a PINGRESP it takes the
      first byte along, and the next read starts inside the PINGRESP. */
  lemma OneByteMoreGoes()
    ensures Prompt([0x30, 4, 1, 2, 3, 4], 5) == (QCLOUD_ERR_BUF_TOO_SHORT, 6)
    ensures Prompt([0x30, 4, 1, 2, 3, 4, 0xD0, 0], 5) == (QCLOUD_ERR_BUF_TOO_SHORT, 7)
    ensures Prompt([0x30, 4, 1, 2, 3, 4, 0xD0, 0][7..], 5) == (QCLOUD_ERR_FAILURE, 1)
  {
    assert TakeLength([0x30, 4, 1, 2, 3, 4][1..], 4) == Taken(4, 1);
    assert TakeLength([0x30, 4, 1, 2, 3, 4, 0xD0, 0][1..], 4) == Taken(4, 1);
    assert [0x30, 4, 1, 2, 3, 4, 0xD0, 0][7..] == [0];
  }

  /** After n reads a prompt network has delivered the first n packets, less those too long. */
  predicate InStepAt(packets: seq<Frame>, size: nat, n: nat) {
    var m := Min(n, |packets|);
    Reads(Joined(packets), size, n) == Reading(0, Kept(packets[..m], size), Joined(packets[m..]))
  }

  predicate NoneDerails(packets: seq<Frame>, n: nat, size: nat) {
    forall k :: 0 <= k < n && k < |packets| ==> !Derails(packets, k, size)
  }

  lemma {:induction false} StaysInStep(packets: seq<Frame>, size: nat, n: nat)
    requires Framed(packets) && NoneDerails(packets, n, size)
    ensures InStepAt(packets, size, n)
  {
    hide Joined, Framed, Kept, TakeFrame, TakeLength, Prompt;
    if n == 0 {
      assert packets[0..] == packets;
      KeptNothing(packets, size);
    } else {
      var k := n - 1;
      StaysInStep(packets, size, k);
      if k < |packets| {
        assert !Derails(packets, k, size);
        NextPacket(packets, k, size);
        var s := Joined(packets[k..]);
        if TakeFrame(s).used < size { FitsExactly(s, size); } else { SkipsExactly(s, size); }
      } else {
        NextPacket(packets, |packets|, size);
      }
    }
  }

  /** The first packet that derails leaves the next read inside the packets behind it: what its body is short of
      the buffer size is missing from them. */
  lemma Derailed(packets: seq<Frame>, k: nat, size: nat)
    requires Framed(packets) && k < |packets| && NoneDerails(packets, k, size) && Derails(packets, k, size)
    ensures var behind := Joined(packets[k + 1..]);
            var gone := Min(size - |packets[k].body|, |behind|);
            && gone > 0
            && Reads(Joined(packets), size, k + 1) == Reading(0, Kept(packets[..k + 1], size), behind[gone..])
    ensures !InStepAt(packets, size, k + 1)
  {
    hide Joined, Framed, Kept, TakeFrame, TakeLength, Prompt;
    StaysInStep(packets, size, k);
    NextPacket(packets, k, size);
    NextPacket(packets, k + 1, size);
    SkipsExactly(Joined(packets[k..]), size);
    var s, w, behind := Joined(packets[k..]), |Bytes(packets[k])|, Joined(packets[k + 1..]);
    var gone := Min(size - |packets[k].body|, |behind|);
    assert s[w + gone..] == s[w..][gone..];
  }

  lemma {:induction false} FirstDerail(packets: seq<Frame>, n: nat, size: nat) returns (k: nat)
    requires !NoneDerails(packets, n, size)
    ensures k < n && k < |packets| && NoneDerails(packets, k, size) && Derails(packets, k, size)
  {
    k := n - 1;
    if !NoneDerails(packets, n - 1, size) {
      k := FirstDerail(packets, n - 1, size);
    }
  }

  /** On a prompt network n reads stay in step all along exactly when none of the first n packets is too long
      with a body that is not and has a packet behind it. */
  lemma InStepExactly(packets: seq<Frame>, size: nat, n: nat)
    requires Framed(packets)
    ensures (forall j :: 0 <= j <= n ==> InStepAt(packets, size, j)) <==> NoneDerails(packets, n, size)
  {
    hide InStepAt;
    if NoneDerails(packets, n, size) {
      forall j | 0 <= j <= n ensures InStepAt(packets, size, j) {
        StaysInStep(packets, size, j);
      }
    } else {
      var k := FirstDerail(packets, n, size);
      Derailed(packets, k, size);
    }
  }

  lemma NoPlanNoFailure()
    ensures NoFailure([])
  {}

  lemma PromptStart(s: seq<byte>, size: nat)
    ensures s == [] ==> Prompt(s, size) == (QCLOUD_ERR_MQTT_NOTHING_TO_READ, 0)
    ensures s != [] && TakeLength(s[1..], 4).Nothing? ==>
              Prompt(s, size) == if |s| < 5 then (QCLOUD_ERR_FAILURE, |s|) else (QCLOUD_ERR_MQTT_PACKET_READ, 5)
  {
    hide TakeLength;
  }

  lemma PromptTooShort(s: seq<byte>, size: nat, rem_len: nat, ptr: nat)
    requires s != [] && 1 <= ptr && TakeLength(s[1..], 4) == Taken(rem_len, ptr - 1) && ptr + rem_len >= size
    ensures ptr <= |s|
    ensures Prompt(s, size) == (QCLOUD_ERR_BUF_TOO_SHORT, ptr + Discarded(rem_len, size, |s| - ptr))
  {
    hide TakeLength, Discarded;
  }

  lemma PromptFits(s: seq<byte>, size: nat, rem_len: nat, ptr: nat)
    requires s != [] && 1 <= ptr && TakeLength(s[1..], 4) == Taken(rem_len, ptr - 1) && ptr + rem_len < size
    ensures Prompt(s, size) ==
            if rem_len <= |s| - ptr then (QCLOUD_RET_SUCCESS, ptr + rem_len)
            else (if |s| == ptr then QCLOUD_ERR_TCP_NOTHING_TO_READ else QCLOUD_ERR_TCP_READ_TIMEOUT, |s|)
  {
    hide TakeLength;
  }

  lemma Dropped(s: seq<byte>, a: nat, n: nat)
    requires a + n <= |s|
    ensures s[a..][n..] == s[a + n..]
  {}

  /** Reading n bytes after the first a is reading a + n. */
  lemma Onwards(was: seq<byte>, s: seq<byte>, a: nat, n: nat)
    requires a + n <= |s| && a + n <= |was|
    ensures s[a..][n..] == s[a + n..]
    ensures Put(Put(was, 0, s[..a]), a, s[a..][..n]) == Put(was, 0, s[..a + n])
  {
    assert s[..a] + s[a..][..n] == s[..a + n];
    PutPut(was, 0, s[..a], s[a..][..n]);
  }

  lemma WholePacket(s: seq<byte>, rem_len: nat, ptr: nat)
    requires 1 <= ptr && ptr + rem_len <= |s| && TakeLength(s[1..], 4) == Taken(rem_len, ptr - 1)
    ensures TakeFrame(s) == Taken(Frame(s[0], s[ptr..ptr + rem_len]), ptr + rem_len)
  {
    hide TakeLength;
  }

  lemma FrontOfPut(s: seq<byte>, w: seq<byte>)
    requires |w| <= |s|
    ensures Put(s, 0, w)[..|w|] == w
  {}

  lemma LastPut(s: seq<byte>, i: nat, w: seq<byte>)
    requires |w| > 0 && i + |w| <= |s|
    ensures Put(s, i, w)[i + |w| - 1] == w[|w| - 1]
  {}

  /** The part of the client that reads: the network and the read buffer. */
  class Client {
    const network: Network
    const read_buf: array<byte>

    ghost predicate Valid() {
      5 <= read_buf.Length
    }

    constructor (network: Network, read_buf: array<byte>)
      requires 5 <= read_buf.Length
      ensures this.network == network && this.read_buf == read_buf && Valid()
    {
      this.network, this.read_buf := network, read_buf;
    }

    method ReadPacketHeader() returns (rc: int, packet_type: nat)
      requires Valid()
      modifies network, read_buf
      ensures rc == 0 ==>
                && |old(network.stream)| > 0 && packet_type == old(network.stream)[0] / 16
                && network.stream == old(network.stream)[1..]
                && read_buf[..] == Put(old(read_buf[..]), 0, old(network.stream)[..1])
      ensures rc != 0 ==>
                && network.stream == old(network.stream) && (rc == QCLOUD_ERR_MQTT_NOTHING_TO_READ || rc < -600)
                && read_buf[..] == old(read_buf[..])
      ensures NoFailure(old(network.plan)) ==>
                NoFailure(network.plan) && rc == if old(network.stream) == [] then QCLOUD_ERR_MQTT_NOTHING_TO_READ else 0
      ensures old(network.plan) == [] ==> network.plan == []
    {
      var read_len;
      rc, read_len := network.Read(read_buf, 0, 1);
      PutNothing(old(read_buf[..]), 0);
      if rc == QCLOUD_ERR_SSL_NOTHING_TO_READ || rc == QCLOUD_ERR_TCP_NOTHING_TO_READ {
        return QCLOUD_ERR_MQTT_NOTHING_TO_READ, 0;
      }
      packet_type := read_buf[0] / 16;
    }

    /** The second remaining-length decoder: a byte a read. */
    method ReadPacketRemainingLen() returns (rc: int, len: nat, ptr: nat)
      requires Valid()
      modifies network, read_buf
      ensures 1 <= ptr <= 5 && ptr - 1 <= |old(network.stream)|
      ensures network.stream == old(network.stream)[ptr - 1..]
      ensures read_buf[..] == Put(old(read_buf[..]), 1, old(network.stream)[..ptr - 1])
      ensures rc == QCLOUD_RET_SUCCESS ==> TakeLength(old(network.stream), 4) == Taken(len, ptr - 1)
      ensures rc == QCLOUD_ERR_MQTT_PACKET_READ ==> ptr == 5 && TakeLength(old(network.stream), 4).Nothing?
      ensures rc in {QCLOUD_RET_SUCCESS, QCLOUD_ERR_MQTT_PACKET_READ, QCLOUD_ERR_FAILURE}
      ensures NoFailure(old(network.plan)) ==> NoFailure(network.plan)
      ensures NoFailure(old(network.plan)) && rc == QCLOUD_ERR_FAILURE ==>
                network.stream == [] && ptr < 5 && TakeLength(old(network.stream), 4).Nothing?
      ensures old(network.plan) == [] ==> network.plan == []
    {
      hide ValueOf, TakeLength, Put;
      ghost var s, was := network.stream, read_buf[..];
      var multiplier: nat, count: nat := 1, 0;
      len := 0;
      ptr := 1;
      ValueOfNothing();
      PutNothing(was, 1);
      assert s[..0] == [];
      while true
        invariant count <= 4 && count <= |s| && ptr == 1 + count
        invariant multiplier == Pow128(count) && len == ValueOf(s[..count])
        invariant forall i :: 0 <= i < count ==> s[i] >= 128
        invariant network.stream == s[count..] && read_buf[..] == Put(was, 1, s[..count])
        invariant NoFailure(old(network.plan)) ==> NoFailure(network.plan)
        invariant old(network.plan) == [] ==> network.plan == []
        decreases 4 - count
      {
        if count == 4 || count == |s| {
          TakenIsRun(s, 4);
        }
        count := count + 1;
        if count > 4 {
          return QCLOUD_ERR_MQTT_PACKET_READ, len, ptr;
        }
        var read_len;
        rc, read_len := network.Read(read_buf, ptr, 1);
        if rc != 0 {
          PutPut(was, 1, s[..count - 1], []);
          assert s[..count - 1] + [] == s[..count - 1];
          return QCLOUD_ERR_FAILURE, len, ptr;
        }
        assert s[count - 1..][..read_len] == [s[count - 1]];
        PutPut(was, 1, s[..count - 1], [s[count - 1]]);
        assert s[..count] == s[..count - 1] + [s[count - 1]];
        LastPut(was, 1, s[..count]);
        var c := read_buf[ptr];
        assert c == read_buf[..][ptr] == s[count - 1];
        ValueOfSnoc(s[..count - 1], c);
        var digit: int := c % 128;
        len := len + digit * multiplier;
        multiplier := multiplier * 128;
        ptr := ptr + 1;
        if c < 128 {
          RunTaken(s, 4, count);
          return QCLOUD_RET_SUCCESS, len, ptr;
        }
      }
    }

    /** Throws a packet away, a buffer at a time. The first read asks for a buffer even when rem_len is less, so
        what goes is rem_len bytes or, when that is more, what the first read hands over. */
    method DiscardPacketForShortBuf(rem_len: nat) returns (rc: int, total_bytes_read: nat)
      requires Valid()
      modifies network, read_buf
      ensures total_bytes_read <= |old(network.stream)| && network.stream == old(network.stream)[total_bytes_read..]
      ensures total_bytes_read <= if rem_len >= read_buf.Length then rem_len else read_buf.Length
      ensures rc == 0 ==>
                total_bytes_read == Max(rem_len, Dealt(old(network.stream), old(network.plan), read_buf.Length).1)
      ensures NoFailure(old(network.plan)) ==> NoFailure(network.plan) && (rc != 0 ==> network.stream == [])
      ensures old(network.plan) == [] ==>
                && network.plan == []
                && total_bytes_read == Discarded(rem_len, read_buf.Length, |old(network.stream)|)
    {
      ghost var s := network.stream;
      ghost var first := Dealt(network.stream, network.plan, read_buf.Length).1;
      var bytes_to_be_read := read_buf.Length;
      total_bytes_read := 0;
      while true
        invariant total_bytes_read <= |s| && network.stream == s[total_bytes_read..]
        invariant total_bytes_read > 0 ==> first <= total_bytes_read < rem_len
        invariant total_bytes_read == 0 ==> first == Dealt(network.stream, network.plan, read_buf.Length).1
        invariant bytes_to_be_read ==
                  if total_bytes_read == 0 || rem_len - total_bytes_read >= read_buf.Length then read_buf.Length
                  else rem_len - total_bytes_read
        invariant NoFailure(old(network.plan)) ==> NoFailure(network.plan)
        invariant old(network.plan) == [] ==>
                    network.plan == [] && (total_bytes_read > 0 && rem_len < read_buf.Length ==> network.stream == [])
        decreases rem_len - total_bytes_read, |network.stream|
      {
        var read_len;
        rc, read_len := network.Read(read_buf, 0, bytes_to_be_read);
        if rc != 0 {
          break;
        }
        total_bytes_read := total_bytes_read + read_len;
        if total_bytes_read >= rem_len {
          break;
        }
        bytes_to_be_read :=
          if rem_len - total_bytes_read >= read_buf.Length then read_buf.Length else rem_len - total_bytes_read;
      }
    }

    method ReadPacketPayload(rem_len: nat, ptr: nat) returns (rc: int)
      requires Valid() && 0 < rem_len && ptr + rem_len <= read_buf.Length
      modifies network, read_buf
      ensures rc == 0 ==>
                && rem_len <= |old(network.stream)| && network.stream == old(network.stream)[rem_len..]
                && read_buf[..] == Put(old(read_buf[..]), ptr, old(network.stream)[..rem_len])
      ensures var d := Dealt(old(network.stream), old(network.plan), rem_len);
              && rc == (if d.0 == 0 && d.1 != rem_len then QCLOUD_ERR_TCP_READ_TIMEOUT else d.0)
              && network.stream == old(network.stream)[d.1..]
      ensures rc != 0 ==> rc < -600
      ensures NoFailure(old(network.plan)) ==> NoFailure(network.plan)
      ensures old(network.plan) == [] ==>
                && network.plan == []
                && (rem_len <= |old(network.stream)| ==> rc == 0)
                && (rem_len > |old(network.stream)| ==>
                      && network.stream == []
                      && rc == if old(network.stream) == [] then QCLOUD_ERR_TCP_NOTHING_TO_READ
                               else QCLOUD_ERR_TCP_READ_TIMEOUT)
    {
      var read_len;
      rc, read_len := network.Read(read_buf, ptr, rem_len);
      if rc != 0 {
        return;
      }
      if read_len != rem_len {
        return QCLOUD_ERR_TCP_READ_TIMEOUT;
      }
    }

    /** The last step of ReadMqttPacket, once the fixed header is read. */
    method ReadOrDiscard(rem_len: nat, ptr: nat, ghost s: seq<byte>, ghost was: seq<byte>) returns (rc: int)
      requires Valid() && |was| == read_buf.Length
      requires 1 <= ptr <= 5 && ptr <= |s| && TakeLength(s[1..], 4) == Taken(rem_len, ptr - 1)
      requires network.stream == s[ptr..] && read_buf[..] == Put(was, 0, s[..ptr])
      modifies network, read_buf
      ensures Suffix(network.stream, s)
      ensures rc == QCLOUD_RET_SUCCESS ==> Delivered(s, network.stream, read_buf[..], ptr + rem_len)
      ensures rc == QCLOUD_ERR_BUF_TOO_SHORT ==>
                Skipped(s, network.stream, read_buf.Length, NoFailure(old(network.plan)))
      ensures rc != QCLOUD_ERR_MQTT_NOTHING_TO_READ
      ensures NoFailure(old(network.plan)) ==> NoFailure(network.plan)
      ensures old(network.plan) == [] ==>
                && network.plan == []
                && (rc, |s| - |network.stream|) == Prompt(s, read_buf.Length)
    {
      hide TakeLength, Put, NoFailure, Prompt, Discarded, TakeFrame, Dealt;
      var packet_len := ptr + rem_len;
      if packet_len >= read_buf.Length {
        PromptTooShort(s, read_buf.Length, rem_len, ptr);
        var _, gone := DiscardPacketForShortBuf(rem_len);
        Dropped(s, ptr, gone);
        return QCLOUD_ERR_BUF_TOO_SHORT;
      }
      PromptFits(s, read_buf.Length, rem_len, ptr);
      rc := 0;
      if rem_len > 0 {
        rc := ReadPacketPayload(rem_len, ptr);
        if rc == 0 {
          Onwards(was, s, ptr, rem_len);
        }
      }
      if rc == 0 {
        WholePacket(s, rem_len, ptr);
        FrontOfPut(was, s[..packet_len]);
      }
    }

    /** Reads one packet. Success means the next packet of the stream, whole and nothing more, however the
        network split it. */
    method ReadMqttPacket() returns (rc: int, packet_type: nat, packet_len: nat)
      requires Valid()
      modifies network, read_buf
      ensures rc == QCLOUD_RET_SUCCESS ==>
                && Delivered(old(network.stream), network.stream, read_buf[..], packet_len)
                && packet_type == old(network.stream)[0] / 16
      ensures Suffix(network.stream, old(network.stream))
      ensures rc == QCLOUD_ERR_MQTT_NOTHING_TO_READ ==> network.stream == old(network.stream)
      ensures rc == QCLOUD_ERR_BUF_TOO_SHORT ==>
                Skipped(old(network.stream), network.stream, read_buf.Length, NoFailure(old(network.plan)))
      ensures NoFailure(old(network.plan)) ==> NoFailure(network.plan)
      ensures NoFailure(old(network.plan)) && rc == QCLOUD_ERR_MQTT_NOTHING_TO_READ ==> old(network.stream) == []
      ensures old(network.plan) == [] ==>
                && network.plan == []
                && (rc, |old(network.stream)| - |network.stream|) == Prompt(old(network.stream), read_buf.Length)
    {
      hide TakeLength, TakeFrame, Put, NoFailure, Prompt, Delivered;
      ghost var s, was := network.stream, read_buf[..];
      packet_len := 0;
      NoPlanNoFailure();
      PromptStart(s, read_buf.Length);
      rc, packet_type := ReadPacketHeader();
      if rc != 0 {
        return;
      }
      var rem_len, ptr;
      rc, rem_len, ptr := ReadPacketRemainingLen();
      if rc != 0 {
        return;
      }
      Onwards(was, s, 1, ptr - 1);
      packet_len := ptr + rem_len;
      rc := ReadOrDiscard(rem_len, ptr, s, was);
    }

    /** The client's reading, n packets at a time: it goes on while there is nothing to read or a packet was too
        long, and stops at any other error. What it gets is the packets of the stream, in order, less the ones
        too long for the buffer, until it is `lost`: behind a packet it did not throw away exactly, which needs a
        failed read or a packet that straddles the buffer size with more behind it. */
    method ReadPackets(n: nat, ghost packets: seq<Frame>)
      returns (rc: int, got: seq<seq<byte>>, ghost passed: nat, ghost lost: bool)
      requires Valid() && network.stream == Joined(packets) && Framed(packets)
      modifies network, read_buf
      ensures passed <= |packets|
      ensures !lost ==> got == Kept(packets[..passed], read_buf.Length)
      ensures !lost && rc == 0 ==> network.stream == Joined(packets[passed..])
      ensures lost ==>
                && 0 < passed && Kept(packets[..passed], read_buf.Length) <= got
                && |Bytes(packets[passed - 1])| >= read_buf.Length
                && (NoFailure(old(network.plan)) ==> Derails(packets, passed - 1, read_buf.Length))
      ensures old(network.plan) == [] ==>
                Reading(rc, got, network.stream) == Reads(old(network.stream), read_buf.Length, n)
    {
      hide Joined, Framed, Kept, NoFailure, Prompt, TakeFrame, TakeLength, Reads, Suffix, Along, Delivered,
           Skipped, Bytes;
      ghost var size, unfailing := read_buf.Length, NoFailure(network.plan);
      rc, got, passed, lost := 0, [], 0, false;
      AlongStart(packets, size, unfailing);
      ReadsNothing(network.stream, size);
      for i := 0 to n
        invariant rc == 0 && Along(packets, passed, lost, got, network.stream, size, unfailing)
        invariant unfailing ==> NoFailure(network.plan)
        invariant old(network.plan) == [] ==>
                    network.plan == [] && Reading(0, got, network.stream) == Reads(old(network.stream), size, i)
      {
        ghost var s, before, planned := network.stream, got, NoFailure(network.plan);
        AlongIs(packets, passed, lost, got, s, size, unfailing);
        var packet_type, packet_len;
        rc, packet_type, packet_len := ReadMqttPacket();
        if old(network.plan) == [] {
          ReadsOneMore(old(network.stream), size, i, before, s, rc, network.stream);
        }
        if rc == QCLOUD_RET_SUCCESS {
          DeliveredIs(s, network.stream, read_buf[..], packet_len);
          assert read_buf[..][..packet_len] == read_buf[..packet_len];
          AlongDelivered(packets, passed, lost, got, s, network.stream, read_buf[..], packet_len, unfailing);
          got := got + [read_buf[..packet_len]];
          passed := if lost then passed else passed + 1;
        } else if rc == QCLOUD_ERR_BUF_TOO_SHORT {
          SkippedStill(s, network.stream, size, planned, unfailing);
          AlongSkipped(packets, passed, lost, got, s, network.stream, size, unfailing);
          if !lost {
            passed := passed + 1;
            lost := network.stream != Joined(packets[passed..]);
          }
          rc := 0;
        } else if rc == QCLOUD_ERR_MQTT_NOTHING_TO_READ {
          rc := 0;
        } else {
          if old(network.plan) == [] {
            ReadsStopped(old(network.stream), size, i + 1, n);
          }
          return;
        }
      }
      AlongIs(packets, passed, lost, got, network.stream, size, unfailing);
    }
  }
}
