/** The ring of packet ids by which the client knows a repeated QoS 1 message. */
module RepeatRing {
  import opened Common

  const MQTT_MAX_REPEAT_BUF_LEN := 10

  const QCLOUD_RET_SUCCESS := 0
  const QCLOUD_ERR_FAILURE := -1001
  const QCLOUD_ERR_BUF_TOO_SHORT := -119
  const MQTT_ERR_SHORT_BUFFER := -2

  /** The last ten of some ids, oldest first. */
  function LastTen(ids: seq<uint16>): (w: seq<uint16>)
    requires |ids| >= 10
    ensures |w| == 10
  {
    ids[|ids| - 10..]
  }

  const ZEROS: seq<uint16> := [0, 0, 0, 0, 0, 0, 0, 0, 0, 0]

  /** No id among the ten before it. */
  predicate NoRepeats(ids: seq<uint16>) {
    forall i, j :: 0 <= i < j < |ids| && j - i <= 10 && j >= 10 ==> ids[i] != ids[j]
  }

  /** The ids accepted from a run of messages: each one that is not among the last ten accepted, where ten zeros
      stand before the first. */
  function Accepted(arrived: seq<uint16>): (r: seq<uint16>)
    ensures |r| >= 10
  {
    if arrived == [] then ZEROS
    else
      var n := |arrived| - 1;
      var before := Accepted(arrived[..n]);
      if arrived[n] in LastTen(before) then before else before + [arrived[n]]
  }

  lemma ZerosNeverRepeat()
    ensures NoRepeats(ZEROS)
  {}

  lemma NewNeverRepeats(before: seq<uint16>, id: uint16)
    requires |before| >= 10 && NoRepeats(before) && id !in LastTen(before)
    ensures NoRepeats(before + [id])
  {
    forall i | 0 <= i < |before| && |before| - i <= 10 ensures before[i] != id {
      assert before[i] == LastTen(before)[i - (|before| - 10)];
    }
  }

  /** The accepted ids start with the ten zeros, and no id repeats one of the ten before it. */
  lemma {:induction false} AcceptedNeverRepeats(arrived: seq<uint16>)
    ensures Accepted(arrived)[..10] == ZEROS && NoRepeats(Accepted(arrived))
  {
    hide NoRepeats;
    if arrived != [] {
      var n := |arrived| - 1;
      AcceptedNeverRepeats(arrived[..n]);
      var before := Accepted(arrived[..n]);
      if arrived[n] !in LastTen(before) {
        NewNeverRepeats(before, arrived[n]);
        assert (before + [arrived[n]])[..10] == before[..10];
      }
    } else {
      ZerosNeverRepeat();
    }
  }

  lemma LastTenNext(ids: seq<uint16>, id: uint16)
    requires |ids| >= 10
    ensures LastTen(ids + [id]) == LastTen(ids)[1..] + [id]
  {
    var n := |ids| - 10;
    assert (ids + [id])[n + 1..] == ids[n + 1..] + [id];
    assert ids[n..][1..] == ids[n + 1..];
  }

  /** One message more. */
  lemma AcceptedNext(arrived: seq<uint16>, id: uint16)
    ensures var before, after := Accepted(arrived), Accepted(arrived + [id]);
            if id in LastTen(before) then after == before
            else after == before + [id] && LastTen(after) == LastTen(before)[1..] + [id]
  {
    hide LastTen;
    var all := arrived + [id];
    assert all[..|arrived|] == arrived && all[|arrived|] == id;
    LastTenNext(Accepted(arrived), id);
  }

  /** Overwriting the oldest slot of a ring and moving on drops the oldest and adds the newest. */
  lemma Overwrite(b: seq<uint16>, c: nat, id: uint16)
    requires |b| == 10 && c < 10
    ensures var b', c' := b[c := id], (c + 1) % 10; b'[c'..] + b'[..c'] == (b[c..] + b[..c])[1..] + [id]
  {
    var b' := b[c := id];
    assert b'[c + 1..] == b[c + 1..] && b'[..c] == b[..c];
    assert b'[..c + 1] == b[..c] + [id];
    if c == 9 {
      assert b'[0..] + b'[..0] == b'[..10];
    }
  }

  /** Turning a ring keeps what is in it. */
  lemma InTurned(b: seq<uint16>, c: nat, id: uint16)
    requires c <= |b|
    ensures id in b <==> id in b[c..] + b[..c]
  {
    assert b == b[..c] + b[c..];
  }

  class Ring {
    const repeat_packet_id_buf: array<uint16>
    var current_packet_id_cnt: nat
    /** Every QoS 1 id handled so far. */
    ghost var arrived: seq<uint16>

    /** The slots from the oldest. */
    ghost function Window(): seq<uint16>
      requires current_packet_id_cnt <= repeat_packet_id_buf.Length
      reads this, repeat_packet_id_buf
    {
      repeat_packet_id_buf[..][current_packet_id_cnt..] + repeat_packet_id_buf[..][..current_packet_id_cnt]
    }

    ghost predicate Valid()
      reads this, repeat_packet_id_buf
    {
      && repeat_packet_id_buf.Length == MQTT_MAX_REPEAT_BUF_LEN && current_packet_id_cnt < MQTT_MAX_REPEAT_BUF_LEN
      && Window() == LastTen(Accepted(arrived))
    }

    constructor ()
      ensures Valid() && arrived == [] && fresh(repeat_packet_id_buf)
    {
      repeat_packet_id_buf := new uint16[10](_ => 0);
      current_packet_id_cnt, arrived := 0, [];
      new;
      assert Window() == ZEROS;
    }

    method GetPacketIdRepeatBuf(packet_id: uint16) returns (rc: int)
      requires repeat_packet_id_buf.Length == MQTT_MAX_REPEAT_BUF_LEN
      ensures rc == if packet_id in repeat_packet_id_buf[..] then packet_id else -1
    {
      for i := 0 to MQTT_MAX_REPEAT_BUF_LEN
        invariant packet_id !in repeat_packet_id_buf[..i]
      {
        if packet_id == repeat_packet_id_buf[i] {
          return packet_id;
        }
      }
      assert repeat_packet_id_buf[..MQTT_MAX_REPEAT_BUF_LEN] == repeat_packet_id_buf[..];
      return -1;
    }

    lemma InWindow(packet_id: uint16)
      requires Valid()
      ensures packet_id in repeat_packet_id_buf[..] <==> packet_id in LastTen(Accepted(arrived))
    {
      hide Accepted, LastTen;
      InTurned(repeat_packet_id_buf[..], current_packet_id_cnt, packet_id);
    }

    /** Puts a new id in the oldest slot. */
    method AddPacketIdToRepeatBuf(packet_id: uint16)
      requires Valid()
      modifies this, repeat_packet_id_buf
      ensures Valid() && arrived == old(arrived) + [packet_id]
    {
      hide Accepted;
      AcceptedNext(arrived, packet_id);
      Overwrite(repeat_packet_id_buf[..], current_packet_id_cnt, packet_id);
      var rc := GetPacketIdRepeatBuf(packet_id);
      InWindow(packet_id);
      arrived := arrived + [packet_id];
      if rc >= 0 {
        return;
      }
      ghost var was := repeat_packet_id_buf[..];
      repeat_packet_id_buf[current_packet_id_cnt] := packet_id;
      assert repeat_packet_id_buf[..] == was[current_packet_id_cnt := packet_id];
      current_packet_id_cnt := current_packet_id_cnt + 1;
      current_packet_id_cnt := current_packet_id_cnt % MQTT_MAX_REPEAT_BUF_LEN;
    }

    /** Handles a PUBLISH: parse_rc is what parsing gave, puback_len what serializing the PUBACK gives and send_rc
        what sending it would return. Over any run, a QoS 1 message is delivered exactly when its id is not among
        the last ten accepted; it counts as accepted whatever becomes of its PUBACK, which goes out exactly when it
        could be serialized. */
    method HandlePublish(parse_rc: int, qos: nat, packet_id: uint16, puback_len: int, send_rc: int)
      returns (rc: int, delivered: bool, sent: seq<uint16>)
      requires Valid()
      modifies this, repeat_packet_id_buf
      ensures Valid()
      ensures rc ==
              if parse_rc != 0 then parse_rc
              else if qos == 0 then QCLOUD_RET_SUCCESS
              else if puback_len > 0 then send_rc
              else if puback_len == MQTT_ERR_SHORT_BUFFER then QCLOUD_ERR_BUF_TOO_SHORT else QCLOUD_ERR_FAILURE
      ensures parse_rc != 0 ==> !delivered
      ensures parse_rc == 0 && qos == 0 ==> delivered
      ensures parse_rc != 0 || qos == 0 ==> sent == [] && arrived == old(arrived)
      ensures parse_rc == 0 && qos > 0 ==>
                && delivered == (packet_id !in LastTen(Accepted(old(arrived))))
                && delivered == (Accepted(arrived) == Accepted(old(arrived)) + [packet_id])
                && arrived == old(arrived) + [packet_id]
                && sent == if puback_len > 0 then [packet_id] else []
    {
      if parse_rc != 0 {
        return parse_rc, false, [];
      }
      if qos == 0 {
        return QCLOUD_RET_SUCCESS, true, [];
      }
      hide Accepted;
      InWindow(packet_id);
      AcceptedNext(arrived, packet_id);
      var found := GetPacketIdRepeatBuf(packet_id);
      delivered := found < 0;
      AddPacketIdToRepeatBuf(packet_id);
      if puback_len > 0 {
        return send_rc, delivered, [packet_id];
      }
      rc, sent := if puback_len == MQTT_ERR_SHORT_BUFFER then QCLOUD_ERR_BUF_TOO_SHORT else QCLOUD_ERR_FAILURE, [];
    }
  }
}
