/** The delays of the reconnect back-off. */
module Backoff {

  const MAX_RECONNECT_WAIT_INTERVAL := 60000

  function Pow2(n: nat): (p: nat)
    ensures p >= 1
  {
    if n == 0 then 1 else 2 * Pow2(n - 1)
  }

  /** The first n delays: the initial interval, doubled each time. */
  function Delays(first: nat, n: nat): (r: seq<nat>)
    ensures |r| == n
  {
    if n == 0 then [] else Delays(first, n - 1) + [first * Pow2(n - 1)]
  }

  function Sum(s: seq<nat>): nat {
    if s == [] then 0 else Sum(s[..|s| - 1]) + s[|s| - 1]
  }

  lemma Distribute(a: nat, p: nat)
    requires p >= 1
    ensures a * (2 * p - 1) == a * (p - 1) + a * p
  {}

  lemma {:induction false} DelaysSum(first: nat, n: nat)
    ensures Sum(Delays(first, n)) == first * (Pow2(n) - 1)
  {
    if n > 0 {
      DelaysSum(first, n - 1);
      var d := Delays(first, n);
      assert d[..n - 1] == Delays(first, n - 1);
      Distribute(first, Pow2(n - 1));
    }
  }

  /** The random initial intervals: 1000 to 1990 ms by tens. */
  predicate Initial(first: nat) {
    1000 <= first <= 1990 && first % 10 == 0
  }

  /** The attempts after which the interval passes the maximum. */
  function GiveUpAfter(first: nat): nat {
    if first <= 1870 then 6 else 5
  }

  lemma PowersOfTwo()
    ensures Pow2(0) == 1 && Pow2(1) == 2 && Pow2(2) == 4 && Pow2(3) == 8
    ensures Pow2(4) == 16 && Pow2(5) == 32 && Pow2(6) == 64
  {
    assert Pow2(3) == 8;
  }

  /** Until then the interval stays within the maximum; then it does not. */
  lemma GivesUpThen(first: nat, n: nat)
    requires Initial(first) && n <= GiveUpAfter(first)
    ensures first * Pow2(n) > MAX_RECONNECT_WAIT_INTERVAL <==> n == GiveUpAfter(first)
    ensures 58280 <= Sum(Delays(first, GiveUpAfter(first))) <= 117810
  {
    PowersOfTwo();
    DelaysSum(first, GiveUpAfter(first));
    assert n in {0, 1, 2, 3, 4, 5, 6};
  }
}

/** The state of the link: keep-alive pings, disconnects and reconnecting. */
module MqttLink {
  import opened Backoff

  const QCLOUD_RET_SUCCESS := 0
  const QCLOUD_RET_MQTT_RECONNECTED := 1
  const QCLOUD_RET_MQTT_MANUALLY_DISCONNECTED := 2
  const QCLOUD_RET_MQTT_ALREADY_CONNECTED := 4
  const QCLOUD_ERR_MQTT_NO_CONN := -103
  const QCLOUD_ERR_MQTT_ATTEMPTING_RECONNECT := -105
  const QCLOUD_ERR_MQTT_RECONNECT_TIMEOUT := -106
  const QCLOUD_ERR_RX_MESSAGE_INVAL := -118
  const MQTT_PING_RETRY_TIMES := 2
  const MQTT_PING_SEND_RETRY_TIMES := 3

  datatype PacketType =
    | CONNACK | PUBLISH | PUBACK | PUBREC | PUBREL | PUBCOMP | SUBACK | UNSUBACK | PINGRESP | OTHER

  type errcode = rc: int | rc != 0 witness -1

  /** How an attempt to connect goes: accepted, and what resubscribing returns; or rejected with a code, perhaps
      after a packet that counts as an answer was read while waiting for the CONNACK. */
  datatype Attempt = Accepted(resubscribe_rc: int) | Rejected(rc: errcode, answered: bool)

  /** What reading gives in one cycle: nothing, an error, or a packet and what its handler returns. */
  datatype Read = Nothing | Failed(rc: errcode) | Packet(packet_type: PacketType, handler_rc: int)

  /** One turn of the yield loop, as the world decides it. */
  datatype Turn = Turn(now: int, attempt: Attempt, read: Read, sends: seq<int>, disconnect_rc: int, random: nat)

  /** What matters to the ping count: a ping is sent, a packet counts as an answer, or the link is made anew. */
  datatype LinkEvent = PingSent | Answered | Linked

  function PingsSince(history: seq<LinkEvent>): nat {
    if history == [] || history[|history| - 1] != PingSent then 0 else 1 + PingsSince(history[..|history| - 1])
  }

  lemma PingsNext(history: seq<LinkEvent>, e: LinkEvent)
    ensures PingsSince(history + [e]) == if e == PingSent then 1 + PingsSince(history) else 0
  {
    assert (history + [e])[..|history|] == history;
  }

  /** The first of at most four sends that goes out, or the last of them. */
  function SentBy(sends: seq<int>): (k: nat)
    requires |sends| >= 4
    ensures k < 4 && (sends[k] == 0 || k == 3) && forall i :: 0 <= i < k ==> sends[i] != 0
  {
    if sends[0] == 0 then 0 else if sends[1] == 0 then 1 else if sends[2] == 0 then 2 else 3
  }

  /** The codes for which yield takes the connection for lost. */
  predicate Broken(rc: int) {
    rc in {-707, -708, -608, -604, -606}
  }

  /** No attempt is accepted, and none rejected with the code that means "reconnected". */
  predicate AllRejected(turns: seq<Turn>) {
    forall t :: t in turns ==> t.attempt.Rejected? && t.attempt.rc != QCLOUD_RET_MQTT_RECONNECTED
  }

  /** The first turn comes when the delay armed is over, and the others a longest delay apart. */
  predicate Unhurried(turns: seq<Turn>, timer: int) {
    forall i :: 0 <= i < |turns| ==>
                  turns[i].now >= if i == 0 then timer else turns[i - 1].now + MAX_RECONNECT_WAIT_INTERVAL
  }

  function AtMost(a: nat, b: nat): nat {
    if a < b then a else b
  }

  /** Whether a cycle reads a packet that counts as an answer. */
  predicate Answers(read: Read) {
    read.Packet? && read.packet_type in {PUBLISH, PUBACK, SUBACK, UNSUBACK, PINGRESP}
  }

  lemma Doubled(a: nat, p: nat)
    ensures a * (2 * p) == a * p * 2
  {}

  /** One failed attempt more. */
  lemma OneMore(first: nat, attempts: nat)
    requires Initial(first) && attempts <= GiveUpAfter(first)
    requires first * Pow2(attempts) <= MAX_RECONNECT_WAIT_INTERVAL
    ensures attempts < GiveUpAfter(first)
    ensures first * Pow2(attempts + 1) == first * Pow2(attempts) * 2
    ensures first * Pow2(attempts + 1) > MAX_RECONNECT_WAIT_INTERVAL <==> attempts + 1 == GiveUpAfter(first)
    ensures Delays(first, attempts + 2) == Delays(first, attempts + 1) + [first * Pow2(attempts + 1)]
  {
    hide Initial, GiveUpAfter;
    GivesUpThen(first, attempts);
    GivesUpThen(first, attempts + 1);
    Doubled(first, Pow2(attempts));
  }

  class Client {
    const auto_connect_enable: bool
    const keep_alive_interval: nat
    const command_timeout_ms: nat
    var is_connected: bool
    var was_manually_disconnected: bool
    var is_ping_outstanding: nat
    var current_reconnect_wait_interval: nat
    var counter_network_disconnected: nat
    var ping_timer: int
    var reconnect_delay_timer: int
    ghost var history: seq<LinkEvent>
    /** Since the last disconnect was detected, every attempt to reconnect was rejected, and never with 1. */
    ghost var losing: bool
    ghost var first: nat
    ghost var attempts: nat
    ghost var armed: seq<nat>

    ghost predicate BacksOff()
      reads this
    {
      losing ==>
        && !is_connected && auto_connect_enable && Initial(first) && attempts <= GiveUpAfter(first)
        && current_reconnect_wait_interval == first * Pow2(attempts)
        && armed == Delays(first, if attempts == GiveUpAfter(first) then attempts else attempts + 1)
    }

    ghost predicate Valid()
      reads this
    {
      BacksOff() && is_ping_outstanding == PingsSince(history) <= MQTT_PING_RETRY_TIMES
    }

    constructor (auto_connect_enable: bool, keep_alive_interval: nat, command_timeout_ms: nat)
      ensures Valid() && !is_connected && !losing && is_ping_outstanding == 0 && history == []
    {
      this.auto_connect_enable, this.keep_alive_interval := auto_connect_enable, keep_alive_interval;
      this.command_timeout_ms := command_timeout_ms;
      is_connected, was_manually_disconnected, is_ping_outstanding := false, false, 0;
      current_reconnect_wait_interval, counter_network_disconnected := 0, 0;
      ping_timer, reconnect_delay_timer := 0, 0;
      history, losing, first, attempts, armed := [], false, 0, 0, [];
    }

    method SetReconnectWaitInterval(now: int, random: nat)
      requires Valid() && !is_connected
      modifies `counter_network_disconnected
      modifies `current_reconnect_wait_interval, `reconnect_delay_timer, `losing, `first, `attempts, `armed
      ensures Valid() && counter_network_disconnected == old(counter_network_disconnected) + 1
      ensures auto_connect_enable ==>
                && losing && attempts == 0 && armed == [first] && Initial(first)
                && first == current_reconnect_wait_interval == (random % 100 + 100) * 10
                && reconnect_delay_timer == now + first
      ensures !auto_connect_enable ==>
                && unchanged(this`current_reconnect_wait_interval, this`reconnect_delay_timer)
                && unchanged(this`losing, this`first, this`attempts, this`armed)
    {
      counter_network_disconnected := counter_network_disconnected + 1;
      if auto_connect_enable {
        current_reconnect_wait_interval := (random % 100 + 100) * 10;
        reconnect_delay_timer := now + current_reconnect_wait_interval;
        losing, first, attempts := true, current_reconnect_wait_interval, 0;
        armed := [first];
        PowersOfTwo();
        assert Delays(first, 1) == Delays(first, 0) + [first * Pow2(0)];
      }
    }

    /** The user's disconnect. */
    method Disconnect(send_rc: int) returns (rc: int)
      requires Valid()
      modifies `is_connected, `was_manually_disconnected
      ensures Valid()
      ensures rc == if !old(is_connected) then QCLOUD_ERR_MQTT_NO_CONN else send_rc
      ensures is_connected == (old(is_connected) && rc != 0)
      ensures was_manually_disconnected == (rc == 0 || old(was_manually_disconnected))
    {
      if !is_connected {
        return QCLOUD_ERR_MQTT_NO_CONN;
      }
      if send_rc != 0 {
        return send_rc;
      }
      is_connected := false;
      was_manually_disconnected := true;
      return 0;
    }

    /** Disconnects, by force if the DISCONNECT cannot be sent, and arms the first delay. */
    method HandleDisconnect(now: int, disconnect_rc: int, random: nat)
      requires Valid()
      modifies `is_connected, `was_manually_disconnected, `counter_network_disconnected
      modifies `current_reconnect_wait_interval, `reconnect_delay_timer, `losing, `first, `attempts, `armed
      ensures Valid() && !is_connected && counter_network_disconnected == old(counter_network_disconnected) + 1
      ensures old(is_connected) ==> !was_manually_disconnected
      ensures !old(is_connected) ==> was_manually_disconnected == old(was_manually_disconnected)
      ensures auto_connect_enable ==>
                && losing && attempts == 0 && armed == [first] && Initial(first)
                && current_reconnect_wait_interval == first && reconnect_delay_timer == now + first
    {
      if !is_connected {
        SetReconnectWaitInterval(now, random);
        return;
      }
      var rc := Disconnect(disconnect_rc);
      if rc != 0 {
        is_connected := false;
      }
      was_manually_disconnected := false;
      SetReconnectWaitInterval(now, random);
    }

    /** A packet that shows the server is there. */
    method HandlePingresp(now: int)
      requires Valid()
      modifies this`is_ping_outstanding, this`ping_timer, this`history
      ensures Valid() && is_ping_outstanding == 0 && history == old(history) + [Answered]
      ensures ping_timer == now + 1000 * keep_alive_interval
    {
      PingsNext(history, Answered);
      is_ping_outstanding := 0;
      ping_timer := now + 1000 * keep_alive_interval;
      history := history + [Answered];
    }

    /** Makes the link, which forgets the pings sent on the last one. */
    method Connect(attempt: Attempt, now: int) returns (rc: int)
      requires Valid()
      modifies `is_connected, `was_manually_disconnected, `is_ping_outstanding, `ping_timer, `history, `losing
      ensures Valid()
      ensures old(is_connected) ==> rc == QCLOUD_RET_MQTT_ALREADY_CONNECTED && unchanged(this)
      ensures !old(is_connected) && attempt.Accepted? ==>
                && rc == 0 && is_connected && is_ping_outstanding == 0 && !was_manually_disconnected && !losing
                && history == old(history) + [Linked] && ping_timer == now + 1000 * keep_alive_interval
      ensures !old(is_connected) && attempt.Rejected? ==>
                && rc == attempt.rc && !is_connected && losing == old(losing)
                && history == old(history) + (if attempt.answered then [Answered] else [])
                && was_manually_disconnected == old(was_manually_disconnected)
    {
      hide PingsSince, GiveUpAfter, Delays, Pow2, Initial;
      if is_connected {
        return QCLOUD_RET_MQTT_ALREADY_CONNECTED;
      }
      match attempt {
        case Rejected(code, answered) =>
          if answered {
            HandlePingresp(now);
          }
          return code;
        case Accepted(_) =>
          PingsNext(history, Linked);
          is_connected, was_manually_disconnected, is_ping_outstanding := true, false, 0;
          ping_timer := now + 1000 * keep_alive_interval;
          history := history + [Linked];
          losing := false;
          return 0;
      }
    }

    method AttemptReconnect(attempt: Attempt, now: int) returns (rc: int)
      requires Valid() && !is_connected
      modifies `is_connected, `was_manually_disconnected, `is_ping_outstanding, `ping_timer, `history, `losing
      ensures Valid() && is_connected == attempt.Accepted?
      ensures rc == if attempt.Rejected? then attempt.rc
                    else if attempt.resubscribe_rc != 0 then attempt.resubscribe_rc else QCLOUD_RET_MQTT_RECONNECTED
      ensures attempt.Accepted? ==> !losing && !was_manually_disconnected && history == old(history) + [Linked]
      ensures attempt.Rejected? ==>
                && losing == old(losing) && was_manually_disconnected == old(was_manually_disconnected)
                && history == old(history) + if attempt.answered then [Answered] else []
    {
      rc := Connect(attempt, now);
      if !is_connected {
        return;
      }
      if attempt.resubscribe_rc != 0 {
        return attempt.resubscribe_rc;
      }
      return QCLOUD_RET_MQTT_RECONNECTED;
    }

    /** Attempts to reconnect once the delay is over; a failure doubles the delay and arms it again, until it
        passes the maximum. */
    method HandleReconnect(turn: Turn) returns (rc: int)
      requires Valid() && !is_connected && current_reconnect_wait_interval <= MAX_RECONNECT_WAIT_INTERVAL
      modifies `is_connected, `was_manually_disconnected, `is_ping_outstanding, `ping_timer, `history, `losing
      modifies `current_reconnect_wait_interval, `reconnect_delay_timer, `attempts, `armed
      ensures Valid()
      ensures old(reconnect_delay_timer) > turn.now ==>
                rc == QCLOUD_ERR_MQTT_ATTEMPTING_RECONNECT && unchanged(this)
      ensures old(reconnect_delay_timer) <= turn.now ==>
                && is_connected == turn.attempt.Accepted?
                && var reconnected := turn.attempt == Accepted(0)
                                      || (turn.attempt.Rejected? && turn.attempt.rc == QCLOUD_RET_MQTT_RECONNECTED)
                                      || turn.attempt == Accepted(QCLOUD_RET_MQTT_RECONNECTED);
                && var once, twice := old(current_reconnect_wait_interval), 2 * old(current_reconnect_wait_interval);
                && current_reconnect_wait_interval == (if reconnected then once else twice)
                && rc == (if reconnected then QCLOUD_RET_MQTT_RECONNECTED
                          else if twice > MAX_RECONNECT_WAIT_INTERVAL then QCLOUD_ERR_MQTT_RECONNECT_TIMEOUT
                          else QCLOUD_ERR_MQTT_ATTEMPTING_RECONNECT)
                && reconnect_delay_timer == (if reconnected || twice > MAX_RECONNECT_WAIT_INTERVAL
                                             then old(reconnect_delay_timer) else turn.now + twice)
      ensures turn.attempt.Rejected? ==> was_manually_disconnected == old(was_manually_disconnected)
      ensures old(losing) && old(reconnect_delay_timer) <= turn.now && turn.attempt.Rejected?
              && turn.attempt.rc != QCLOUD_RET_MQTT_RECONNECTED ==>
                && losing && first == old(first) && attempts == old(attempts) + 1
                && rc == (if attempts == GiveUpAfter(first) then QCLOUD_ERR_MQTT_RECONNECT_TIMEOUT
                          else QCLOUD_ERR_MQTT_ATTEMPTING_RECONNECT)
                && armed == old(armed)
                            + (if attempts == GiveUpAfter(first) then [] else [current_reconnect_wait_interval])
                && (attempts < GiveUpAfter(first) ==>
                      reconnect_delay_timer == turn.now + current_reconnect_wait_interval)
    {
      hide PingsSince, GiveUpAfter, Delays;
      if reconnect_delay_timer > turn.now {
        return QCLOUD_ERR_MQTT_ATTEMPTING_RECONNECT;
      }
      rc := AttemptReconnect(turn.attempt, turn.now);
      if rc == QCLOUD_RET_MQTT_RECONNECTED {
        losing := false;
        return;
      }
      if losing {
        OneMore(first, attempts);
        attempts := attempts + 1;
      }
      current_reconnect_wait_interval := current_reconnect_wait_interval * 2;
      if MAX_RECONNECT_WAIT_INTERVAL < current_reconnect_wait_interval {
        return QCLOUD_ERR_MQTT_RECONNECT_TIMEOUT;
      }
      reconnect_delay_timer := turn.now + current_reconnect_wait_interval;
      armed := armed + [current_reconnect_wait_interval];
      return QCLOUD_ERR_MQTT_ATTEMPTING_RECONNECT;
    }

    /** Reads one packet, if there is one. A PUBACK, SUBACK, UNSUBACK or PINGRESP forgets the pings sent and
        restarts the interval; a PUBLISH only forgets the pings. */
    method CycleForRead(read: Read, now: int) returns (rc: int)
      requires Valid()
      modifies this`is_ping_outstanding, this`ping_timer, this`history
      ensures Valid()
      ensures rc == match read
                    case Nothing => 0
                    case Failed(code) => code
                    case Packet(OTHER, _) => QCLOUD_ERR_RX_MESSAGE_INVAL
                    case Packet(PUBLISH, code) => code
                    case Packet(t, code) => if t in {PUBACK, SUBACK, UNSUBACK} then code else 0
      ensures history == old(history) + if Answers(read) then [Answered] else []
      ensures ping_timer == if Answers(read) && read.packet_type != PUBLISH then now + 1000 * keep_alive_interval
                            else old(ping_timer)
    {
      rc := 0;
      match read {
        case Nothing => return 0;
        case Failed(code) => return code;
        case Packet(packet_type, handler_rc) =>
          if packet_type == OTHER {
            return QCLOUD_ERR_RX_MESSAGE_INVAL;
          }
          if packet_type in {PUBLISH, PUBACK, SUBACK, UNSUBACK} {
            rc := handler_rc;
          }
          if packet_type in {PUBACK, SUBACK, UNSUBACK, PINGRESP} {
            HandlePingresp(now);
          } else if packet_type == PUBLISH {
            PingsNext(history, Answered);
            is_ping_outstanding := 0;
            history := history + [Answered];
          }
      }
    }

    /** Sends a ping, trying again three times. */
    method Pingreq(sends: seq<int>) returns (rc: int)
      requires |sends| >= 4
      ensures rc == sends[SentBy(sends)]
      ensures rc != 0 <==> forall i :: 0 <= i < 4 ==> sends[i] != 0
    {
      var i: nat := 0;
      rc := sends[0];
      while rc != 0 && i < MQTT_PING_SEND_RETRY_TIMES
        invariant i <= 3 && rc == sends[i] && forall k :: 0 <= k < i ==> sends[k] != 0
        decreases 3 - i
      {
        i := i + 1;
        rc := sends[i];
      }
      assert i == SentBy(sends);
    }

    /** Keeps the link alive. It disconnects only when a ping is due and either two pings went out with no answer
        since, or this one could not be sent. */
    method KeepAlive(turn: Turn) returns (rc: int)
      requires Valid() && is_connected && |turn.sends| >= 4
      modifies this
      ensures Valid()
      ensures var due := keep_alive_interval != 0 && old(ping_timer) <= turn.now;
              var silent := PingsSince(old(history)) == MQTT_PING_RETRY_TIMES;
              var unsent := forall i :: 0 <= i < 4 ==> turn.sends[i] != 0;
              && rc == (if due && (silent || unsent) then QCLOUD_ERR_MQTT_NO_CONN else 0)
              && is_connected == (rc == 0)
              && history == old(history) + (if due && rc == 0 then [PingSent] else [])
              && (!due ==> unchanged(this))
              && (due && rc == 0 ==> ping_timer == turn.now + command_timeout_ms && losing == old(losing))
              && (rc != 0 ==> !was_manually_disconnected && (auto_connect_enable ==> losing && attempts == 0))
    {
      if keep_alive_interval == 0 {
        return 0;
      }
      if ping_timer > turn.now {
        return 0;
      }
      if is_ping_outstanding >= MQTT_PING_RETRY_TIMES {
        HandleDisconnect(turn.now, turn.disconnect_rc, turn.random);
        return QCLOUD_ERR_MQTT_NO_CONN;
      }
      rc := Pingreq(turn.sends);
      if rc != 0 {
        HandleDisconnect(turn.now, turn.disconnect_rc, turn.random);
        return QCLOUD_ERR_MQTT_NO_CONN;
      }
      PingsNext(history, PingSent);
      is_ping_outstanding := is_ping_outstanding + 1;
      ping_timer := turn.now + command_timeout_ms;
      history := history + [PingSent];
      return 0;
    }

    /** One turn of the loop in Yield while connected, and whether Yield returns with it. */
    method ConnectedTurn(turn: Turn) returns (rc: int, over: bool)
      requires Valid() && is_connected && |turn.sends| >= 4
      modifies this
      ensures Valid() && (!over ==> rc == QCLOUD_RET_SUCCESS && !losing)
    {
      hide PingsSince, GiveUpAfter, Delays;
      rc := CycleForRead(turn.read, turn.now);
      if rc == QCLOUD_RET_SUCCESS {
        rc := KeepAlive(turn);
        if rc != 0 {
          return if auto_connect_enable then QCLOUD_ERR_MQTT_ATTEMPTING_RECONNECT else rc, true;
        }
        return rc, false;
      } else if Broken(rc) {
        HandleDisconnect(turn.now, turn.disconnect_rc, turn.random);
        return if auto_connect_enable then QCLOUD_ERR_MQTT_ATTEMPTING_RECONNECT else QCLOUD_ERR_MQTT_NO_CONN, true;
      }
      return rc, true;
    }

    /** One call of yield, a turn for each time round its loop: every state it leaves is valid. Once the interval
        has passed the maximum, every call reports the reconnect timeout and changes nothing. */
    method Yield(turns: seq<Turn>) returns (rc: int)
      requires Valid() && forall t :: t in turns ==> |t.sends| >= 4
      modifies this
      ensures Valid()
      ensures !old(is_connected) && old(was_manually_disconnected) ==> rc == QCLOUD_RET_MQTT_MANUALLY_DISCONNECTED
      ensures !old(is_connected) && !old(was_manually_disconnected) && !auto_connect_enable ==>
                rc == QCLOUD_ERR_MQTT_NO_CONN
      ensures old(losing) && old(attempts) == GiveUpAfter(old(first)) && !old(was_manually_disconnected)
              && turns != [] ==>
                && rc == QCLOUD_ERR_MQTT_RECONNECT_TIMEOUT && losing && attempts == old(attempts)
                && armed == old(armed) && first == old(first)
      ensures old(losing) && !old(was_manually_disconnected) && turns != [] && AllRejected(turns) ==>
                && losing && first == old(first) && attempts >= old(attempts)
                && rc == (if attempts == GiveUpAfter(first) then QCLOUD_ERR_MQTT_RECONNECT_TIMEOUT
                          else QCLOUD_ERR_MQTT_ATTEMPTING_RECONNECT)
                && (Unhurried(turns, old(reconnect_delay_timer)) ==>
                      attempts == AtMost(old(attempts) + |turns|, GiveUpAfter(first)))
    {
      hide PingsSince, GiveUpAfter, Delays;
      if losing {
        GivesUpThen(first, attempts);
      }
      if !is_connected && was_manually_disconnected {
        return QCLOUD_RET_MQTT_MANUALLY_DISCONNECTED;
      }
      if !is_connected && !auto_connect_enable {
        return QCLOUD_ERR_MQTT_NO_CONN;
      }
      rc := QCLOUD_RET_SUCCESS;
      for i := 0 to |turns|
        invariant Valid()
        invariant losing ==>
                    (current_reconnect_wait_interval > MAX_RECONNECT_WAIT_INTERVAL <==> attempts == GiveUpAfter(first))
        invariant i == 0 ==>
                    && is_connected == old(is_connected) && losing == old(losing) && attempts == old(attempts)
                    && armed == old(armed) && first == old(first)
                    && current_reconnect_wait_interval == old(current_reconnect_wait_interval)
        invariant i > 0 ==> !(old(losing) && old(attempts) == GiveUpAfter(old(first)))
        invariant old(losing) && !old(was_manually_disconnected) && AllRejected(turns) ==>
                    && losing && first == old(first) && attempts >= old(attempts)
                    && (i > 0 ==> rc == if attempts == GiveUpAfter(first) then QCLOUD_ERR_MQTT_RECONNECT_TIMEOUT
                                        else QCLOUD_ERR_MQTT_ATTEMPTING_RECONNECT)
        invariant old(losing) && !old(was_manually_disconnected) && AllRejected(turns)
                  && Unhurried(turns, old(reconnect_delay_timer)) ==>
                    && attempts == AtMost(old(attempts) + i, GiveUpAfter(first))
                    && (i == 0 ==> reconnect_delay_timer == old(reconnect_delay_timer))
                    && (i > 0 && attempts < GiveUpAfter(first) ==>
                          reconnect_delay_timer <= turns[i - 1].now + MAX_RECONNECT_WAIT_INTERVAL)
      {
        var turn := turns[i];
        if !is_connected {
          if current_reconnect_wait_interval > MAX_RECONNECT_WAIT_INTERVAL {
            return QCLOUD_ERR_MQTT_RECONNECT_TIMEOUT;
          }
          rc := HandleReconnect(turn);
          if losing {
            GivesUpThen(first, attempts);
          }
          continue;
        }
        var over;
        rc, over := ConnectedTurn(turn);
        if over { return; }
      }
    }

    /** After a disconnect, when every attempt is rejected and never with 1: the client has given up exactly after
        six attempts, or five when the first interval was above 1870 ms, and the delays it armed until then come to
        between 58280 and 117810 ms. */
    lemma GivesUp()
      requires Valid() && losing
      ensures attempts <= GiveUpAfter(first)
      ensures current_reconnect_wait_interval > MAX_RECONNECT_WAIT_INTERVAL <==>
              attempts == if first <= 1870 then 6 else 5
      ensures current_reconnect_wait_interval > MAX_RECONNECT_WAIT_INTERVAL ==> 58280 <= Sum(armed) <= 117810
    {
      GivesUpThen(first, attempts);
    }
  }
}
