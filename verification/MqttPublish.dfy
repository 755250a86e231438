/** Packet ids: a counter that runs through 1 to 65535 and round again. */
module PacketIds {
  import opened Common

  const MAX_PACKET_ID := 65535

  function Next(id: uint16): (r: uint16)
    ensures 1 <= r <= MAX_PACKET_ID
  {
    if id == MAX_PACKET_ID then 1 else id + 1
  }

  /** The ids of a run of draws, in order, from a counter that stands at id. */
  function Drawn(id: uint16, n: nat): (r: seq<uint16>)
    ensures |r| == n
    decreases n
  {
    if n == 0 then [] else [Next(id)] + Drawn(Next(id), n - 1)
  }

  /** The id of the k-th draw, counted from 0. */
  function IdAt(id: uint16, k: nat): (r: uint16)
    ensures 1 <= r <= MAX_PACKET_ID
  {
    (id + k) % MAX_PACKET_ID + 1
  }

  /** One draw more. */
  lemma NextId(id: uint16, k: nat)
    ensures Next(id) == IdAt(id, 0) && Next(IdAt(id, k)) == IdAt(id, k + 1)
  {}

  lemma {:induction false} Shift(id: uint16, k: nat)
    ensures IdAt(Next(id), k) == IdAt(id, k + 1)
  {
    NextId(id, k);
    if k > 0 {
      Shift(id, k - 1);
      NextId(Next(id), k - 1);
      NextId(id, k);
    }
  }

  lemma {:induction false} DrawnAt(id: uint16, n: nat, k: nat)
    requires k < n
    ensures Drawn(id, n)[k] == IdAt(id, k)
    decreases n
  {
    if k > 0 {
      DrawnAt(Next(id), n - 1, k - 1);
      Shift(id, k - 1);
    }
  }

  lemma IdsAreDistinct(id: uint16, i: nat, j: nat)
    requires i < j
    ensures j - i < MAX_PACKET_ID ==> IdAt(id, i) != IdAt(id, j)
    ensures j - i == MAX_PACKET_ID ==> IdAt(id, i) == IdAt(id, j)
  {}

  /** Any 65535 consecutive draws are different ids; the one after repeats the first of them. */
  lemma DrawsAreDistinct(id: uint16, n: nat, i: nat, j: nat)
    requires i < j < n
    ensures 1 <= Drawn(id, n)[i] <= MAX_PACKET_ID
    ensures j - i < MAX_PACKET_ID ==> Drawn(id, n)[i] != Drawn(id, n)[j]
    ensures j - i == MAX_PACKET_ID ==> Drawn(id, n)[i] == Drawn(id, n)[j]
  {
    DrawnAt(id, n, i);
    DrawnAt(id, n, j);
    IdsAreDistinct(id, i, j);
  }
}

/** QoS 1 publishing: what waits for its PUBACK. */
module MqttPublish {
  import opened Common
  import opened PacketIds
  import opened UtilsList

  const QCLOUD_RET_SUCCESS := 0
  const QCLOUD_ERR_FAILURE := -1001
  const QCLOUD_ERR_BUF_TOO_SHORT := -119
  const MQTT_ERR_SHORT_BUFFER := -2
  const MAX_REPUB_NUM := 20

  datatype PubInfo = PubInfo(packet_id: uint16, len: int, expires: int)

  function HasId(id: uint16): PubInfo -> bool {
    (v: PubInfo) => v.packet_id == id
  }

  /** Takes the first publish with the id a PUBACK names. */
  function RemoveInfo(id: uint16): Handle<(), PubInfo> {
    Taking(HasId(id), v => ())
  }

  /** Takes every publish whose timer has run out, and notes the ids it tells the user about. */
  function CheckTimeout(now: int): Handle<seq<uint16>, PubInfo> {
    Some((data: seq<uint16>, v: PubInfo) =>
           if v.expires > now then Step(data, false, false) else Step(data + [v.packet_id], true, false))
  }

  /** The publishes whose timer has not run out. */
  function Unexpired(vals: seq<Ptr<PubInfo>>, now: int): (r: seq<bool>)
    requires NoneNull(vals)
    ensures |r| == |vals|
  {
    seq(|vals|, i requires 0 <= i < |vals| => vals[i].value.expires > now)
  }

  /** The ids of the others, in order. */
  function Lapsed(vals: seq<Ptr<PubInfo>>, now: int): seq<uint16>
    requires NoneNull(vals)
  {
    if vals == [] then []
    else (if vals[0].value.expires > now then [] else [vals[0].value.packet_id]) + Lapsed(vals[1..], now)
  }

  lemma LapsedFirst(vals: seq<Ptr<PubInfo>>, now: int, data: seq<uint16>)
    requires NoneNull(vals) && vals != []
    ensures data + Lapsed(vals, now)
         == (if vals[0].value.expires > now then data else data + [vals[0].value.packet_id]) + Lapsed(vals[1..], now)
  {}

  lemma UnexpiredFirst(vals: seq<Ptr<PubInfo>>, now: int)
    requires NoneNull(vals) && vals != []
    ensures Unexpired(vals, now) == [vals[0].value.expires > now] + Unexpired(vals[1..], now)
  {}

  lemma OneVisit<S, V>(vals: seq<Ptr<V>>, handle: Handle<S, V>, data: S)
    requires vals != [] && !One(vals[0], handle, data).stop
    ensures var step := One(vals[0], handle, data);
            var (last, stay) := Visit(vals[1..], handle, step.data);
            Visit(vals, handle, data) == (last, [!step.remove] + stay)
  {}

  lemma {:induction false} TimeoutSweep(vals: seq<Ptr<PubInfo>>, now: int, data: seq<uint16>)
    requires NoneNull(vals)
    ensures Visit(vals, CheckTimeout(now), data) == (data + Lapsed(vals, now), Unexpired(vals, now))
  {
    if vals == [] {
      assert data + Lapsed(vals, now) == data;
    } else {
      hide Unexpired, Visit, Lapsed;
      OneVisit(vals, CheckTimeout(now), data);
      LapsedFirst(vals, now, data);
      UnexpiredFirst(vals, now);
      TimeoutSweep(vals[1..], now, if vals[0].value.expires > now then data else data + [vals[0].value.packet_id]);
    }
  }

  /** The draws of a list of publishes go up. */
  predicate Rising<T>(s: seq<T>, rank: map<T, nat>) {
    && (forall i :: 0 <= i < |s| ==> s[i] in rank)
    && forall i, j :: 0 <= i < j < |s| ==> rank[s[i]] < rank[s[j]]
  }

  /** A selection goes up as well. */
  lemma {:induction false} SelectedRises<T>(s: seq<T>, stay: seq<bool>, rank: map<T, nat>)
    requires |s| == |stay| && Rising(s, rank)
    ensures Rising(Select(s, stay), rank)
  {
    if s != [] {
      var n := |s| - 1;
      SelectedRises(s[..n], stay[..n], rank);
      var r := Select(s[..n], stay[..n]);
      forall i | 0 <= i < |r| ensures rank[r[i]] < rank[s[n]] {
        assert r[i] in s[..n];
      }
    }
  }

  /** An element of a list without repetition is selected when its mark says so. */
  lemma {:induction false} SelectedWhenMarked<T>(s: seq<T>, stay: seq<bool>, i: nat)
    requires |s| == |stay| && i < |s| && forall j, k :: 0 <= j < k < |s| ==> s[j] != s[k]
    ensures s[i] in Select(s, stay) <==> stay[i]
  {
    var n := |s| - 1;
    if i < n {
      SelectedWhenMarked(s[..n], stay[..n], i);
    } else {
      assert s[n] !in s[..n];
    }
  }

  /** Taking one of distinct elements out leaves the others. */
  lemma OnlyOneLess<T>(s: seq<T>, k: nat, n: T)
    requires k < |s| && n in s && forall i, j :: 0 <= i < j < |s| ==> s[i] != s[j]
    ensures n in s[..k] + s[k + 1..] <==> n != s[k]
  {
    var i :| 0 <= i < |s| && s[i] == n;
    if i != k {
      assert (s[..k] + s[k + 1..])[if i < k then i else i - 1] == n;
    }
  }

  ghost function Elements<T>(s: seq<T>): set<T> {
    set n | n in s
  }

  lemma LastAdded<T>(s: seq<T>)
    requires s != []
    ensures Elements(s) == Elements(s[..|s| - 1]) + {s[|s| - 1]}
  {}

  lemma {:induction false} DistinctCount<T>(s: seq<T>)
    requires forall i, j :: 0 <= i < j < |s| ==> s[i] != s[j]
    ensures |Elements(s)| == |s|
  {
    if s != [] {
      DistinctCount(s[..|s| - 1]);
      LastAdded(s);
    }
  }

  /** Exactly one of three. */
  predicate OnlyOneOf(a: bool, b: bool, c: bool) {
    (a || b || c) && !(a && b) && !(a && c) && !(b && c)
  }

  /** What a PUBACK does: only publishes with its id leave, and they are acknowledged; one leaves if any has it. */
  ghost predicate Answered(w: seq<Node<PubInfo>>, acked: set<Node<PubInfo>>, w': seq<Node<PubInfo>>,
                           acked': set<Node<PubInfo>>, drawn_at: map<Node<PubInfo>, nat>, first_id: uint16,
                           parse_rc: int, packet_id: uint16)
  {
    && (forall n :: n in w ==> n in drawn_at)
    && (forall n :: n in w' ==> n in w)
    && acked' == acked + (set n | n in w && n !in w')
    && (forall n :: n in w && n !in w' ==> parse_rc == 0 && IdAt(first_id, drawn_at[n]) == packet_id)
    && (parse_rc == 0 && (forall n :: n in w ==> n in w') ==>
          forall n :: n in w ==> IdAt(first_id, drawn_at[n]) != packet_id)
  }

  lemma NothingAnswered(w: seq<Node<PubInfo>>, acked: set<Node<PubInfo>>, drawn_at: map<Node<PubInfo>, nat>,
                        first_id: uint16, parse_rc: int, packet_id: uint16)
    requires forall n :: n in w ==> n in drawn_at
    ensures parse_rc != 0 ==> Answered(w, acked, w, acked, drawn_at, first_id, parse_rc, packet_id)
  {
    assert acked == acked + (set n | n in w && n !in w);
  }

  /** Taking the first publish with the id, if there is one. */
  lemma OldestAnswers(w: seq<Node<PubInfo>>, k: nat, acked: set<Node<PubInfo>>, drawn_at: map<Node<PubInfo>, nat>,
                      first_id: uint16, packet_id: uint16)
    requires k <= |w| && Rising(w, drawn_at)
    requires forall i :: 0 <= i < k ==> IdAt(first_id, drawn_at[w[i]]) != packet_id
    requires k < |w| ==> IdAt(first_id, drawn_at[w[k]]) == packet_id
    ensures if k < |w| then Answered(w, acked, w[..k] + w[k + 1..], acked + {w[k]}, drawn_at, first_id, 0, packet_id)
            else Answered(w, acked, w, acked, drawn_at, first_id, 0, packet_id)
  {
    hide IdAt;
    if k < |w| {
      var w' := w[..k] + w[k + 1..];
      forall n | n in w ensures n in w' <==> n != w[k] {
        OnlyOneLess(w, k, n);
      }
      assert (set n | n in w && n !in w') == {w[k]};
    } else {
      assert acked == acked + (set n | n in w && n !in w);
    }
  }

  /** What a timeout check does: exactly the publishes whose time is up leave. */
  ghost predicate Swept(w: seq<Node<PubInfo>>, w': seq<Node<PubInfo>>, due: map<Node<PubInfo>, int>, now: int) {
    && (forall n :: n in w' ==> n in w)
    && forall n :: n in w ==> n in due && (n in w' <==> due[n] > now)
  }

  /** The part of the client that publishes. The ghost fields follow each publish, that is, its list node: those
      that returned an id, those acknowledged and those timed out, and at which draw each got its id. */
  class Client {
    var next_packet_id: uint16
    const list_pub_wait_ack: List<PubInfo>
    ghost const first_id: uint16
    ghost var draws: nat
    ghost var drawn_at: map<Node<PubInfo>, nat>
    ghost var due: map<Node<PubInfo>, int>
    ghost var issued: set<Node<PubInfo>>
    ghost var acked: set<Node<PubInfo>>
    ghost var expired: set<Node<PubInfo>>

    /** The waiting publishes, oldest first. */
    ghost function Waiting(): seq<Node<PubInfo>>
      reads this, list_pub_wait_ack
    {
      list_pub_wait_ack.nodes
    }

    ghost predicate Accounted()
      reads this, list_pub_wait_ack
    {
      var waiting := list_pub_wait_ack.Footprint();
      && issued == waiting + acked + expired
      && waiting !! acked && waiting !! expired && acked !! expired
    }

    ghost predicate Numbered()
      reads this, list_pub_wait_ack, list_pub_wait_ack.nodes
    {
      && (draws == 0 ==> next_packet_id == first_id)
      && (draws > 0 ==> next_packet_id == IdAt(first_id, draws - 1))
      && Rising(Waiting(), drawn_at)
      && forall n :: n in Waiting() ==>
                       && drawn_at[n] < draws && n.val.Ref?
                       && n.val.value.packet_id == IdAt(first_id, drawn_at[n])
                       && n in due && n.val.value.expires == due[n]
    }

    ghost predicate Valid()
      reads this, list_pub_wait_ack, list_pub_wait_ack.nodes
    {
      && list_pub_wait_ack.Valid() && list_pub_wait_ack.max_len == MAX_REPUB_NUM
      && Accounted() && Numbered()
    }

    constructor (start: uint16)
      ensures Valid() && Waiting() == [] && draws == 0 && issued == {} && first_id == start
      ensures fresh(list_pub_wait_ack)
    {
      next_packet_id, first_id, draws, drawn_at, due := start, start, 0, map[], map[];
      issued, acked, expired := {}, {}, {};
      list_pub_wait_ack := new List(MAX_REPUB_NUM);
    }

    method GetNextPacketId() returns (id: uint16)
      requires Valid()
      modifies this
      ensures Valid() && draws == old(draws) + 1 && id == IdAt(first_id, old(draws)) == next_packet_id
      ensures drawn_at == old(drawn_at) && due == old(due)
      ensures issued == old(issued) && acked == old(acked) && expired == old(expired)
    {
      hide List.Valid, Rising, IdAt;
      NextId(first_id, if draws == 0 then 0 else draws - 1);
      next_packet_id := if MAX_PACKET_ID == next_packet_id then 1 else next_packet_id + 1;
      draws := draws + 1;
      id := next_packet_id;
    }

    /** Puts a publish with the id just drawn at the end of the wait list. */
    method PushPubInfo(packet_len: int, packet_id: uint16, deadline: int) returns (node: Node?<PubInfo>)
      requires Valid() && draws > 0 && packet_id == next_packet_id
      requires forall n :: n in Waiting() ==> drawn_at[n] < draws - 1
      modifies this, list_pub_wait_ack, list_pub_wait_ack.Footprint()
      ensures Valid() && acked == old(acked) && expired == old(expired) && draws == old(draws)
      ensures node == null <==> |old(Waiting())| == MAX_REPUB_NUM
      ensures node == null ==>
                && Waiting() == old(Waiting()) && issued == old(issued)
                && drawn_at == old(drawn_at) && due == old(due)
      ensures node != null ==> drawn_at == old(drawn_at)[node := draws - 1] && due == old(due)[node := deadline]
      ensures node != null ==>
                && fresh(node) && Waiting() == old(Waiting()) + [node] && issued == old(issued) + {node}
                && node.val == Ref(PubInfo(packet_id, packet_len, deadline))
    {
      hide List.Valid, IdAt;
      node := list_pub_wait_ack.Push(Ref(PubInfo(packet_id, packet_len, deadline)));
      if node != null {
        drawn_at, due := drawn_at[node := draws - 1], due[node := deadline];
        issued := issued + {node};
        assert list_pub_wait_ack.Footprint() == old(list_pub_wait_ack.Footprint()) + {node};
      }
    }

    /** A waiting publish stands at one place. */
    lemma Apart()
      requires Valid()
      ensures forall i, j :: 0 <= i < j < |Waiting()| ==> Waiting()[i] != Waiting()[j]
    {}

    /** Takes the last publish back. */
    method TakeBack(node: Node<PubInfo>)
      requires Valid() && Waiting() != [] && node == Waiting()[|Waiting()| - 1]
      modifies this, list_pub_wait_ack, list_pub_wait_ack.Footprint()
      ensures Valid() && acked == old(acked) && expired == old(expired) && draws == old(draws)
      ensures Waiting() == old(Waiting())[..|old(Waiting())| - 1] && issued == old(issued) - {node}
      ensures drawn_at == old(drawn_at) && due == old(due)
    {
      hide List.Valid, IdAt;
      ghost var k: nat := |Waiting()| - 1;
      Apart();
      list_pub_wait_ack.Remove(node, k);
      issued := issued - {node};
      assert list_pub_wait_ack.Footprint() == old(list_pub_wait_ack.Footprint()) - {node};
    }

    lemma AllDrawn()
      requires Valid()
      ensures forall n :: n in Waiting() ==> n in drawn_at && drawn_at[n] < draws
    {}

    /** Publishes: packet_len is what serializing gave, send_rc what sending will give. A QoS 1 publish waits
        from before it is sent, and is taken back when sending fails. */
    method Publish(qos: nat, packet_len: int, send_rc: int, deadline: int) returns (rc: int)
      requires Valid() && send_rc <= 0
      modifies this, list_pub_wait_ack, list_pub_wait_ack.Footprint()
      ensures Valid() && acked == old(acked) && expired == old(expired)
      ensures draws == old(draws) + if qos > 0 then 1 else 0
      ensures rc ==
              if packet_len < 0 then
                if packet_len == MQTT_ERR_SHORT_BUFFER then QCLOUD_ERR_BUF_TOO_SHORT else QCLOUD_ERR_FAILURE
              else if qos > 0 && |old(Waiting())| == MAX_REPUB_NUM then QCLOUD_ERR_FAILURE
              else if send_rc != 0 then send_rc
              else if qos > 0 then IdAt(first_id, old(draws)) else 0
      ensures rc <= 0 ==> Waiting() == old(Waiting()) && issued == old(issued)
      ensures forall n :: n in old(drawn_at) && !fresh(n) ==> n in drawn_at && drawn_at[n] == old(drawn_at)[n]
      ensures forall n :: n in old(due) && !fresh(n) ==> n in due && due[n] == old(due)[n]
      ensures rc > 0 ==>
                && |Waiting()| == |old(Waiting())| + 1 && Waiting()[..|Waiting()| - 1] == old(Waiting())
                && var n := Waiting()[|Waiting()| - 1];
                && n !in old(issued) && issued == old(issued) + {n} && fresh(n)
                && n in drawn_at && drawn_at[n] == old(draws) && n in due && due[n] == deadline
                && n.val == Ref(PubInfo(rc, packet_len, deadline))
    {
      hide List.Valid, IdAt, Accounted, Numbered;
      var packet_id: uint16 := 0;
      if qos > 0 {
        AllDrawn();
        packet_id := GetNextPacketId();
      }
      if packet_len < 0 {
        return if packet_len == MQTT_ERR_SHORT_BUFFER then QCLOUD_ERR_BUF_TOO_SHORT else QCLOUD_ERR_FAILURE;
      }
      var node: Node?<PubInfo> := null;
      if qos > 0 {
        node := PushPubInfo(packet_len, packet_id, deadline);
        if node == null {
          return QCLOUD_ERR_FAILURE;
        }
      }
      rc := send_rc;
      if rc != 0 {
        if qos > 0 {
          TakeBack(node);
        }
        return;
      }
      return packet_id;
    }

    /** Walks the wait list; what it takes out is no longer waiting, and not yet put down to anything. */
    method Walk<S>(handle: Handle<S, PubInfo>, data: S) returns (last: S, ghost gone: set<Node<PubInfo>>)
      requires Valid()
      modifies list_pub_wait_ack, list_pub_wait_ack.Footprint()
      ensures list_pub_wait_ack.Valid() && Numbered()
      ensures last == Sweep(old(Vals(Waiting())), LIST_HEAD, handle, data).0
      ensures Waiting() == Select(old(Waiting()), Sweep(old(Vals(Waiting())), LIST_HEAD, handle, data).1)
      ensures gone == old(list_pub_wait_ack.Footprint()) - list_pub_wait_ack.Footprint()
      ensures list_pub_wait_ack.Footprint() <= old(list_pub_wait_ack.Footprint())
    {
      hide List.Valid, IdAt, Sweep, Vals, Rising, Select;
      ghost var was, stay := Waiting(), Sweep(Vals(Waiting()), LIST_HEAD, handle, data).1;
      last := list_pub_wait_ack.Process(LIST_HEAD, handle, data);
      SelectedRises(was, stay, drawn_at);
      gone := old(list_pub_wait_ack.Footprint()) - list_pub_wait_ack.Footprint();
    }

    lemma AllRef()
      requires Valid()
      ensures NoneNull(Vals(Waiting())) && |Vals(Waiting())| == |Waiting()|
    {
      ValsAre(Waiting());
    }

    /** Takes the oldest waiting publish with the id off the list, if there is one. */
    method RemovePubInfoFromList(packet_id: uint16) returns (ghost gone: set<Node<PubInfo>>)
      requires Valid()
      modifies list_pub_wait_ack, list_pub_wait_ack.Footprint()
      ensures list_pub_wait_ack.Valid() && Numbered() && NoneNull(old(Vals(Waiting())))
      ensures gone == old(list_pub_wait_ack.Footprint()) - list_pub_wait_ack.Footprint()
      ensures list_pub_wait_ack.Footprint() <= old(list_pub_wait_ack.Footprint())
      ensures var k := First(old(Vals(Waiting())), HasId(packet_id));
              if k < |old(Waiting())|
              then Waiting() == old(Waiting())[..k] + old(Waiting())[k + 1..] && gone == {old(Waiting())[k]}
              else Waiting() == old(Waiting()) && gone == {}
    {
      hide List.Valid, IdAt, First, Rising, Vals, Sweep, Numbered, NoneNull;
      ghost var was, vals := Waiting(), Vals(Waiting());
      AllRef();
      TakingFirst(was, vals, HasId(packet_id), v => (), ());
      ghost var k := First(vals, HasId(packet_id));
      Apart();
      var nothing: ();
      nothing, gone := Walk(RemoveInfo(packet_id), ());
      if k < |was| {
        forall n | n in was ensures n in Waiting() <==> n != was[k] {
          OnlyOneLess(was, k, n);
        }
      }
    }

    /** Which publish a PUBACK of the id takes. */
    lemma AckAnswers(packet_id: uint16)
      requires Valid()
      ensures NoneNull(Vals(Waiting())) && |Vals(Waiting())| == |Waiting()|
      ensures var w, k := Waiting(), First(Vals(Waiting()), HasId(packet_id));
              if k < |w| then Answered(w, acked, w[..k] + w[k + 1..], acked + {w[k]}, drawn_at, first_id, 0, packet_id)
              else Answered(w, acked, w, acked, drawn_at, first_id, 0, packet_id)
    {
      hide List.Valid, IdAt, Answered, Accounted;
      AllRef();
      ValsAre(Waiting());
      Apart();
      var w, vals := Waiting(), Vals(Waiting());
      assert forall i :: 0 <= i < |w| ==> w[i] in w && vals[i].value.packet_id == IdAt(first_id, drawn_at[w[i]]);
      var k := First(vals, HasId(packet_id));
      assert forall i :: 0 <= i < k ==> !HasId(packet_id)(vals[i].value);
      OldestAnswers(w, k, acked, drawn_at, first_id, packet_id);
    }

    /** Which publishes a timeout check takes. */
    lemma TickSweeps(now: int)
      requires Valid()
      ensures NoneNull(Vals(Waiting())) && |Vals(Waiting())| == |Waiting()|
      ensures Swept(Waiting(), Select(Waiting(), Unexpired(Vals(Waiting()), now)), due, now)
    {
      hide List.Valid, IdAt;
      AllRef();
      ValsAre(Waiting());
      Apart();
      var w, stay := Waiting(), Unexpired(Vals(Waiting()), now);
      forall n | n in w ensures n in due && (n in Select(w, stay) <==> due[n] > now) {
        var i :| 0 <= i < |w| && w[i] == n;
        SelectedWhenMarked(w, stay, i);
      }
    }

    /** The user hears of the id whether or not a publish waited with it. */
    method HandlePuback(parse_rc: int, packet_id: uint16) returns (rc: int, success: seq<uint16>)
      requires Valid()
      modifies this, list_pub_wait_ack, list_pub_wait_ack.Footprint()
      ensures Valid() && issued == old(issued) && expired == old(expired)
      ensures draws == old(draws) && drawn_at == old(drawn_at) && due == old(due)
      ensures rc == parse_rc && success == if parse_rc == 0 then [packet_id] else []
      ensures NoneNull(old(Vals(Waiting())))
      ensures var k := First(old(Vals(Waiting())), HasId(packet_id));
              if parse_rc == 0 && k < |old(Waiting())|
              then
                && Waiting() == old(Waiting())[..k] + old(Waiting())[k + 1..]
                && acked == old(acked) + {old(Waiting())[k]}
              else Waiting() == old(Waiting()) && acked == old(acked)
      ensures Answered(old(Waiting()), old(acked), Waiting(), acked, drawn_at, first_id, parse_rc, packet_id)
      ensures list_pub_wait_ack.Footprint() <= old(list_pub_wait_ack.Footprint())
    {
      hide List.Valid, IdAt, First, Rising, Vals, NoneNull, Answered;
      AllRef();
      AckAnswers(packet_id);
      AllDrawn();
      NothingAnswered(Waiting(), acked, drawn_at, first_id, parse_rc, packet_id);
      if parse_rc != 0 {
        return parse_rc, [];
      }
      ghost var gone := RemovePubInfoFromList(packet_id);
      acked := acked + gone;
      return 0, [packet_id];
    }

    /** Takes every waiting publish whose time is up, and tells the user, in the order they were sent. */
    method CheckPubTimeout(now: int) returns (timeout: seq<uint16>)
      requires Valid()
      modifies this, list_pub_wait_ack, list_pub_wait_ack.Footprint()
      ensures Valid() && issued == old(issued) && acked == old(acked)
      ensures draws == old(draws) && drawn_at == old(drawn_at) && due == old(due)
      ensures NoneNull(old(Vals(Waiting()))) && timeout == Lapsed(old(Vals(Waiting())), now)
      ensures Waiting() == Select(old(Waiting()), Unexpired(old(Vals(Waiting())), now))
      ensures expired == old(expired) + set n | n in old(Waiting()) && n !in Waiting()
      ensures Swept(old(Waiting()), Waiting(), due, now)
      ensures list_pub_wait_ack.Footprint() <= old(list_pub_wait_ack.Footprint())
    {
      hide List.Valid, IdAt, Rising, Vals, Visit, Select, Lapsed, Unexpired, Swept;
      AllRef();
      TickSweeps(now);
      TimeoutSweep(Vals(Waiting()), now, []);
      assert [] + Lapsed(Vals(Waiting()), now) == Lapsed(Vals(Waiting()), now);
      ghost var gone;
      timeout, gone := Walk(CheckTimeout(now), []);
      expired := expired + gone;
    }

    /** Publishes that wait have different ids while fewer than 65535 ids were drawn since the oldest's. */
    lemma WaitingIdsAreDistinct(i: nat, j: nat)
      requires Valid() && i < j < |Waiting()|
      requires draws - drawn_at[Waiting()[0]] <= MAX_PACKET_ID
      ensures Waiting()[i].val.Ref? && Waiting()[j].val.Ref?
      ensures Waiting()[i].val.value.packet_id != Waiting()[j].val.value.packet_id
    {
      hide List.Valid, IdAt;
      var a, b := drawn_at[Waiting()[i]], drawn_at[Waiting()[j]];
      assert drawn_at[Waiting()[0]] <= a < b < draws;
      IdsAreDistinct(first_id, a, b);
    }

    lemma OneFate()
      requires Valid()
      ensures forall n :: n in issued ==> OnlyOneOf(n in Waiting(), n in acked, n in expired)
      ensures forall n :: n in Waiting() || n in acked || n in expired ==> n in issued
    {
      hide List.Valid;
    }

    lemma IssuedAreCounted()
      requires Valid()
      ensures |issued| == |Waiting()| + |acked| + |expired| && |Waiting()| <= MAX_REPUB_NUM
    {
      Apart();
      DistinctCount(Waiting());
      assert Elements(Waiting()) == list_pub_wait_ack.Footprint();
      assert |list_pub_wait_ack.Footprint() + acked| == |list_pub_wait_ack.Footprint()| + |acked|;
    }
  }

  /** What can happen to a publishing client. */
  datatype Op =
    | Send(qos: nat, packet_len: int, send_rc: int, deadline: int)
    | DrawId
    | Ack(parse_rc: int, packet_id: uint16)
    | Tick(now: int)

  /** The publishes that returned an id, each with the id of its draw, in the order of the draws. */
  ghost predicate Logged(start: uint16, returned: seq<uint16>, publishes: seq<Node<PubInfo>>,
                         drawn_at: map<Node<PubInfo>, nat>, draws: nat)
  {
    && |publishes| == |returned| && Rising(publishes, drawn_at)
    && forall i :: 0 <= i < |returned| ==>
                     returned[i] == IdAt(start, drawn_at[publishes[i]]) && drawn_at[publishes[i]] < draws
  }

  lemma LoggedNothing(start: uint16, drawn_at: map<Node<PubInfo>, nat>)
    ensures Logged(start, [], [], drawn_at, 0)
  {}

  lemma LoggedIs(start: uint16, returned: seq<uint16>, publishes: seq<Node<PubInfo>>,
                 drawn_at: map<Node<PubInfo>, nat>, draws: nat)
    requires Logged(start, returned, publishes, drawn_at, draws)
    ensures |publishes| == |returned| && Rising(publishes, drawn_at)
    ensures forall i :: 0 <= i < |returned| ==> returned[i] == IdAt(start, drawn_at[publishes[i]])
    ensures forall i, j :: 0 <= i < j < |publishes| ==> publishes[i] != publishes[j]
    ensures forall n :: n in publishes ==> n in drawn_at
  {}

  lemma LoggedStays(start: uint16, returned: seq<uint16>, publishes: seq<Node<PubInfo>>,
                    drawn_at: map<Node<PubInfo>, nat>, draws: nat, drawn_at': map<Node<PubInfo>, nat>, draws': nat)
    requires Logged(start, returned, publishes, drawn_at, draws) && draws <= draws'
    requires forall n :: n in publishes ==> n in drawn_at' && n in drawn_at && drawn_at'[n] == drawn_at[n]
    ensures Logged(start, returned, publishes, drawn_at', draws')
  {
    hide IdAt;
  }

  lemma LoggedMore(start: uint16, returned: seq<uint16>, publishes: seq<Node<PubInfo>>,
                   drawn_at: map<Node<PubInfo>, nat>, draws: nat, id: uint16, n: Node<PubInfo>)
    requires Logged(start, returned, publishes, drawn_at, draws)
    requires n in drawn_at && drawn_at[n] == draws && id == IdAt(start, draws)
    ensures Logged(start, returned + [id], publishes + [n], drawn_at, draws + 1)
  {
    hide IdAt;
  }

  // ---- what becomes of a publish ----

  datatype Fate = Waits | Acknowledged | TimedOut

  /** What one operation means for a publish that waits with this id and deadline. */
  function Verdict(op: Op, id: uint16, deadline: int): Fate {
    match op
    case Ack(parse_rc, packet_id) => if parse_rc == 0 && packet_id == id then Acknowledged else Waits
    case Tick(now) => if now >= deadline then TimedOut else Waits
    case Send(_, _, _, _) => Waits
    case DrawId => Waits
  }

  /** The first of the operations after it was sent that decides. */
  function FateOf(later: seq<Op>, id: uint16, deadline: int): Fate {
    if later == [] then Waits
    else
      var n := |later| - 1;
      var before := FateOf(later[..n], id, deadline);
      if before != Waits then before else Verdict(later[n], id, deadline)
  }

  /** The ids drawn in a run. */
  function Draws(ops: seq<Op>): nat {
    if ops == [] then 0
    else
      var op := ops[|ops| - 1];
      Draws(ops[..|ops| - 1]) + if op.DrawId? || (op.Send? && op.qos > 0) then 1 else 0
  }

  lemma DrawsNext(ops: seq<Op>, i: nat)
    requires i < |ops|
    ensures Draws(ops[..i + 1]) == Draws(ops[..i]) + if ops[i].DrawId? || (ops[i].Send? && ops[i].qos > 0) then 1 else 0
  {
    assert ops[..i + 1][..i] == ops[..i];
  }

  /** An acknowledged publish has a later PUBACK with its id, a timed out one a later timeout check past its
      deadline, a waiting one no such check; and when it was alone with its id, the first of these decided. */
  ghost predicate Told(fate: Fate, later: seq<Op>, id: uint16, deadline: int, alone: bool) {
    && (fate != Waits ==> exists j :: 0 <= j < |later| && Verdict(later[j], id, deadline) == fate)
    && (fate == Waits ==> forall j :: 0 <= j < |later| ==> Verdict(later[j], id, deadline) != TimedOut)
    && (alone ==> fate == FateOf(later, id, deadline))
  }

  /** What an operation may do to a fate. */
  predicate Moves(fate: Fate, op: Op, id: uint16, deadline: int, alone: bool, fate': Fate) {
    if fate != Waits then fate' == fate
    else if fate' != Waits then fate' == Verdict(op, id, deadline)
    else Verdict(op, id, deadline) != TimedOut && (alone ==> Verdict(op, id, deadline) == Waits)
  }

  lemma ToldMore(fate: Fate, later: seq<Op>, id: uint16, deadline: int, alone: bool, op: Op, alone': bool, fate': Fate)
    requires Told(fate, later, id, deadline, alone) && (alone' ==> alone)
    requires Moves(fate, op, id, deadline, alone', fate')
    ensures Told(fate', later + [op], id, deadline, alone')
  {
    hide Verdict;
    var more := later + [op];
    assert more[..|later|] == later && more[|later|] == op;
    if fate != Waits {
      var j :| 0 <= j < |later| && Verdict(later[j], id, deadline) == fate;
      assert more[j] == later[j];
    }
  }

  ghost function FateIn(n: Node<PubInfo>, waiting: seq<Node<PubInfo>>, acked: set<Node<PubInfo>>): Fate {
    if n in waiting then Waits else if n in acked then Acknowledged else TimedOut
  }

  ghost predicate Story(ops: seq<Op>, id: uint16, n: Node<PubInfo>, sent: nat, waiting: seq<Node<PubInfo>>,
                        acked: set<Node<PubInfo>>, alone: bool)
  {
    && sent < |ops| && ops[sent].Send? && ops[sent].qos > 0
    && Told(FateIn(n, waiting, acked), ops[sent + 1..], id, ops[sent].deadline, alone)
  }

  /** The stories of all publishes so far: operation sent[i] sent publish i. */
  ghost predicate Stories(ops: seq<Op>, returned: seq<uint16>, publishes: seq<Node<PubInfo>>, sent: seq<nat>,
                          waiting: seq<Node<PubInfo>>, acked: set<Node<PubInfo>>, alone: bool)
  {
    && |returned| == |publishes| == |sent|
    && forall i :: 0 <= i < |sent| ==> Story(ops, returned[i], publishes[i], sent[i], waiting, acked, alone)
  }

  /** The deadlines of the publishes are those they were sent with, and their draws the ones made then. */
  ghost predicate Timed(ops: seq<Op>, publishes: seq<Node<PubInfo>>, sent: seq<nat>, due: map<Node<PubInfo>, int>,
                        drawn_at: map<Node<PubInfo>, nat>)
  {
    && |sent| == |publishes|
    && forall i :: 0 <= i < |sent| ==>
                     && sent[i] < |ops| && ops[sent[i]].Send?
                     && publishes[i] in due && due[publishes[i]] == ops[sent[i]].deadline
                     && publishes[i] in drawn_at && drawn_at[publishes[i]] == Draws(ops[..sent[i]])
  }

  lemma StoryMore(ops: seq<Op>, id: uint16, n: Node<PubInfo>, sent: nat, w: seq<Node<PubInfo>>,
                  acked: set<Node<PubInfo>>, alone: bool, op: Op, w': seq<Node<PubInfo>>,
                  acked': set<Node<PubInfo>>, alone': bool)
    requires Story(ops, id, n, sent, w, acked, alone) && (alone' ==> alone)
    requires Moves(FateIn(n, w, acked), op, id, ops[sent].deadline, alone', FateIn(n, w', acked'))
    ensures Story(ops + [op], id, n, sent, w', acked', alone')
  {
    hide Told, Moves, FateIn;
    assert (ops + [op])[sent + 1..] == ops[sent + 1..] + [op];
    ToldMore(FateIn(n, w, acked), ops[sent + 1..], id, ops[sent].deadline, alone, op, alone', FateIn(n, w', acked'));
  }

  /** How every publish moves with an operation. */
  ghost predicate AllMove(ops: seq<Op>, returned: seq<uint16>, publishes: seq<Node<PubInfo>>, sent: seq<nat>, op: Op,
                          w: seq<Node<PubInfo>>, acked: set<Node<PubInfo>>, w': seq<Node<PubInfo>>,
                          acked': set<Node<PubInfo>>, alone': bool)
  {
    && |returned| == |publishes| == |sent|
    && forall i :: 0 <= i < |sent| ==>
                     && sent[i] < |ops| && ops[sent[i]].Send?
                     && Moves(FateIn(publishes[i], w, acked), op, returned[i], ops[sent[i]].deadline, alone',
                              FateIn(publishes[i], w', acked'))
  }

  lemma StoriesMore(ops: seq<Op>, returned: seq<uint16>, publishes: seq<Node<PubInfo>>, sent: seq<nat>,
                    w: seq<Node<PubInfo>>, acked: set<Node<PubInfo>>, alone: bool, op: Op,
                    w': seq<Node<PubInfo>>, acked': set<Node<PubInfo>>, alone': bool)
    requires Stories(ops, returned, publishes, sent, w, acked, alone) && (alone' ==> alone)
    requires AllMove(ops, returned, publishes, sent, op, w, acked, w', acked', alone')
    ensures Stories(ops + [op], returned, publishes, sent, w', acked', alone')
  {
    hide Story, Moves;
    forall i | 0 <= i < |sent|
      ensures Story(ops + [op], returned[i], publishes[i], sent[i], w', acked', alone')
    {
      StoryMore(ops, returned[i], publishes[i], sent[i], w, acked, alone, op, w', acked', alone');
    }
  }

  /** An operation that moves nothing: neither a timeout check nor a PUBACK that parses. */
  lemma NoneMoves(ops: seq<Op>, returned: seq<uint16>, publishes: seq<Node<PubInfo>>, sent: seq<nat>, op: Op,
                  w: seq<Node<PubInfo>>, acked: set<Node<PubInfo>>, w': seq<Node<PubInfo>>, alone': bool)
    requires |returned| == |publishes| == |sent|
    requires forall i :: 0 <= i < |sent| ==> sent[i] < |ops| && ops[sent[i]].Send?
    requires op.Send? || op.DrawId?
    requires forall n :: n in publishes ==> (n in w' <==> n in w)
    ensures AllMove(ops, returned, publishes, sent, op, w, acked, w', acked, alone')
  {}

  /** In a run of at most 65535 draws no id is drawn twice. */
  lemma SameIdSamePublish(start: uint16, a: nat, b: nat, draws: nat)
    requires a < draws && b < draws && draws <= MAX_PACKET_ID && IdAt(start, a) == IdAt(start, b)
    ensures a == b
  {
    hide IdAt;
    if a < b {
      IdsAreDistinct(start, a, b);
    } else if b < a {
      IdsAreDistinct(start, b, a);
    }
  }

  lemma AckMoves(ops: seq<Op>, start: uint16, returned: seq<uint16>, publishes: seq<Node<PubInfo>>, sent: seq<nat>,
                 drawn_at: map<Node<PubInfo>, nat>, draws: nat, parse_rc: int, packet_id: uint16,
                 w: seq<Node<PubInfo>>, acked: set<Node<PubInfo>>, w': seq<Node<PubInfo>>, acked': set<Node<PubInfo>>)
    requires Logged(start, returned, publishes, drawn_at, draws) && |sent| == |publishes|
    requires forall i :: 0 <= i < |sent| ==> sent[i] < |ops| && ops[sent[i]].Send?
    requires forall n :: n in w ==> n in publishes
    requires Answered(w, acked, w', acked', drawn_at, start, parse_rc, packet_id)
    ensures AllMove(ops, returned, publishes, sent, Ack(parse_rc, packet_id), w, acked, w', acked',
                    draws <= MAX_PACKET_ID)
  {
    hide IdAt;
    forall i | 0 <= i < |sent|
      ensures Moves(FateIn(publishes[i], w, acked), Ack(parse_rc, packet_id), returned[i], ops[sent[i]].deadline,
                    draws <= MAX_PACKET_ID, FateIn(publishes[i], w', acked'))
    {
      var n := publishes[i];
      if n in w && n in w' && parse_rc == 0 && returned[i] == packet_id && draws <= MAX_PACKET_ID {
        var m :| m in w && m !in w';
        var j :| 0 <= j < |publishes| && publishes[j] == m;
        SameIdSamePublish(start, drawn_at[n], drawn_at[m], draws);
        assert false;
      }
    }
  }

  lemma TickMoves(ops: seq<Op>, returned: seq<uint16>, publishes: seq<Node<PubInfo>>, sent: seq<nat>,
                  due: map<Node<PubInfo>, int>, drawn_at: map<Node<PubInfo>, nat>, now: int,
                  w: seq<Node<PubInfo>>, acked: set<Node<PubInfo>>, w': seq<Node<PubInfo>>, alone': bool)
    requires |returned| == |publishes| && Timed(ops, publishes, sent, due, drawn_at)
    requires Swept(w, w', due, now) && forall n :: n in w ==> n !in acked
    ensures AllMove(ops, returned, publishes, sent, Tick(now), w, acked, w', acked, alone')
  {}

  /** What a run has come to. */
  ghost predicate SoFar(start: uint16, ops: seq<Op>, returned: seq<uint16>, publishes: seq<Node<PubInfo>>,
                        sent: seq<nat>, waiting: seq<Node<PubInfo>>, acked: set<Node<PubInfo>>,
                        drawn_at: map<Node<PubInfo>, nat>, due: map<Node<PubInfo>, int>, draws: nat)
  {
    && Logged(start, returned, publishes, drawn_at, draws) && Timed(ops, publishes, sent, due, drawn_at)
    && Stories(ops, returned, publishes, sent, waiting, acked, draws <= MAX_PACKET_ID)
  }

  lemma TimedStays(ops: seq<Op>, op: Op, publishes: seq<Node<PubInfo>>, sent: seq<nat>,
                   due: map<Node<PubInfo>, int>, drawn_at: map<Node<PubInfo>, nat>,
                   due': map<Node<PubInfo>, int>, drawn_at': map<Node<PubInfo>, nat>)
    requires Timed(ops, publishes, sent, due, drawn_at)
    requires forall n :: n in publishes && n in due ==> n in due' && due'[n] == due[n]
    requires forall n :: n in publishes && n in drawn_at ==> n in drawn_at' && drawn_at'[n] == drawn_at[n]
    ensures Timed(ops + [op], publishes, sent, due', drawn_at')
  {
    hide Draws;
    forall i | 0 <= i < |sent| ensures (ops + [op])[..sent[i]] == ops[..sent[i]] {}
  }

  /** A publish just sent: nothing has happened to it. */
  lemma StoriesWithNew(ops: seq<Op>, returned: seq<uint16>, publishes: seq<Node<PubInfo>>, sent: seq<nat>,
                       waiting: seq<Node<PubInfo>>, acked: set<Node<PubInfo>>, alone: bool, id: uint16,
                       n: Node<PubInfo>)
    requires Stories(ops, returned, publishes, sent, waiting, acked, alone) && n in waiting
    requires ops != [] && ops[|ops| - 1].Send? && ops[|ops| - 1].qos > 0
    ensures Stories(ops, returned + [id], publishes + [n], sent + [|ops| - 1], waiting, acked, alone)
  {
    assert ops[|ops| - 1 + 1..] == [];
    assert Story(ops, id, n, |ops| - 1, waiting, acked, alone);
    hide Story;
  }

  lemma AfterQuiet(start: uint16, ops: seq<Op>, op: Op, returned: seq<uint16>, publishes: seq<Node<PubInfo>>,
                   sent: seq<nat>, w: seq<Node<PubInfo>>, acked: set<Node<PubInfo>>, w': seq<Node<PubInfo>>,
                   drawn_at: map<Node<PubInfo>, nat>, due: map<Node<PubInfo>, int>, draws: nat,
                   drawn_at': map<Node<PubInfo>, nat>, due': map<Node<PubInfo>, int>, draws': nat)
    requires SoFar(start, ops, returned, publishes, sent, w, acked, drawn_at, due, draws)
    requires (op.Send? || op.DrawId?) && draws <= draws'
    requires forall n :: n in publishes ==> (n in w' <==> n in w)
    requires forall n :: n in publishes && n in drawn_at ==> n in drawn_at' && drawn_at'[n] == drawn_at[n]
    requires forall n :: n in publishes && n in due ==> n in due' && due'[n] == due[n]
    ensures SoFar(start, ops + [op], returned, publishes, sent, w', acked, drawn_at', due', draws')
  {
    hide Stories, AllMove, IdAt;
    LoggedIs(start, returned, publishes, drawn_at, draws);
    LoggedStays(start, returned, publishes, drawn_at, draws, drawn_at', draws');
    NoneMoves(ops, returned, publishes, sent, op, w, acked, w', draws' <= MAX_PACKET_ID);
    StoriesMore(ops, returned, publishes, sent, w, acked, draws <= MAX_PACKET_ID, op, w', acked,
                draws' <= MAX_PACKET_ID);
    TimedStays(ops, op, publishes, sent, due, drawn_at, due', drawn_at');
  }

  lemma AfterSent(start: uint16, ops: seq<Op>, returned: seq<uint16>, publishes: seq<Node<PubInfo>>, sent: seq<nat>,
                  w: seq<Node<PubInfo>>, acked: set<Node<PubInfo>>, drawn_at: map<Node<PubInfo>, nat>,
                  due: map<Node<PubInfo>, int>, draws: nat, id: uint16, n: Node<PubInfo>)
    requires draws > 0 && SoFar(start, ops, returned, publishes, sent, w, acked, drawn_at, due, draws)
    requires Logged(start, returned, publishes, drawn_at, draws - 1)
    requires ops != [] && ops[|ops| - 1].Send? && ops[|ops| - 1].qos > 0 && n in w
    requires n in drawn_at && drawn_at[n] == draws - 1 && id == IdAt(start, draws - 1)
    requires n in due && due[n] == ops[|ops| - 1].deadline && Draws(ops[..|ops| - 1]) == draws - 1
    ensures SoFar(start, ops, returned + [id], publishes + [n], sent + [|ops| - 1], w, acked, drawn_at, due, draws)
  {
    hide Stories, IdAt, Draws;
    LoggedMore(start, returned, publishes, drawn_at, draws - 1, id, n);
    StoriesWithNew(ops, returned, publishes, sent, w, acked, draws <= MAX_PACKET_ID, id, n);
  }

  lemma AfterAck(start: uint16, ops: seq<Op>, returned: seq<uint16>, publishes: seq<Node<PubInfo>>, sent: seq<nat>,
                 w: seq<Node<PubInfo>>, acked: set<Node<PubInfo>>, w': seq<Node<PubInfo>>,
                 acked': set<Node<PubInfo>>, drawn_at: map<Node<PubInfo>, nat>, due: map<Node<PubInfo>, int>,
                 draws: nat, parse_rc: int, packet_id: uint16)
    requires SoFar(start, ops, returned, publishes, sent, w, acked, drawn_at, due, draws)
    requires forall n :: n in w ==> n in publishes
    requires Answered(w, acked, w', acked', drawn_at, start, parse_rc, packet_id)
    ensures SoFar(start, ops + [Ack(parse_rc, packet_id)], returned, publishes, sent, w', acked', drawn_at, due, draws)
  {
    hide Stories, AllMove, Answered, Logged;
    AckMoves(ops, start, returned, publishes, sent, drawn_at, draws, parse_rc, packet_id, w, acked, w', acked');
    StoriesMore(ops, returned, publishes, sent, w, acked, draws <= MAX_PACKET_ID, Ack(parse_rc, packet_id),
                w', acked', draws <= MAX_PACKET_ID);
    TimedStays(ops, Ack(parse_rc, packet_id), publishes, sent, due, drawn_at, due, drawn_at);
  }

  lemma AfterTick(start: uint16, ops: seq<Op>, returned: seq<uint16>, publishes: seq<Node<PubInfo>>, sent: seq<nat>,
                  w: seq<Node<PubInfo>>, acked: set<Node<PubInfo>>, w': seq<Node<PubInfo>>,
                  drawn_at: map<Node<PubInfo>, nat>, due: map<Node<PubInfo>, int>, draws: nat, now: int)
    requires SoFar(start, ops, returned, publishes, sent, w, acked, drawn_at, due, draws)
    requires Swept(w, w', due, now) && forall n :: n in w ==> n !in acked
    ensures SoFar(start, ops + [Tick(now)], returned, publishes, sent, w', acked, drawn_at, due, draws)
  {
    hide Stories, AllMove, Swept;
    LoggedIs(start, returned, publishes, drawn_at, draws);
    TickMoves(ops, returned, publishes, sent, due, drawn_at, now, w, acked, w', draws <= MAX_PACKET_ID);
    StoriesMore(ops, returned, publishes, sent, w, acked, draws <= MAX_PACKET_ID, Tick(now), w', acked,
                draws <= MAX_PACKET_ID);
    TimedStays(ops, Tick(now), publishes, sent, due, drawn_at, due, drawn_at);
  }

  lemma NothingSoFar(start: uint16, acked: set<Node<PubInfo>>, drawn_at: map<Node<PubInfo>, nat>,
                     due: map<Node<PubInfo>, int>)
    ensures SoFar(start, [], [], [], [], [], acked, drawn_at, due, 0) && Draws([]) == 0
  {}

  lemma SoFarIs(start: uint16, ops: seq<Op>, returned: seq<uint16>, publishes: seq<Node<PubInfo>>, sent: seq<nat>,
                waiting: seq<Node<PubInfo>>, acked: set<Node<PubInfo>>, drawn_at: map<Node<PubInfo>, nat>,
                due: map<Node<PubInfo>, int>, draws: nat)
    requires SoFar(start, ops, returned, publishes, sent, waiting, acked, drawn_at, due, draws)
    ensures Logged(start, returned, publishes, drawn_at, draws)
    ensures Stories(ops, returned, publishes, sent, waiting, acked, draws <= MAX_PACKET_ID)
    ensures |publishes| == |returned| && Rising(publishes, drawn_at)
    ensures |sent| == |returned| && forall i :: 0 <= i < |sent| ==> sent[i] < |ops|
    ensures forall i :: 0 <= i < |returned| ==> returned[i] == IdAt(start, Draws(ops[..sent[i]]))
    ensures forall i, j :: 0 <= i < j < |sent| ==> Draws(ops[..sent[i]]) < Draws(ops[..sent[j]])
    ensures forall i, j :: 0 <= i < j < |publishes| ==> publishes[i] != publishes[j]
    ensures forall n :: n in publishes ==> n in drawn_at && n in due
  {
    hide Stories, IdAt, Draws;
    LoggedIs(start, returned, publishes, drawn_at, draws);
  }

  /** A client that has come through the operations so far. */
  ghost predicate Ran(client: Client, start: uint16, ops: seq<Op>, returned: seq<uint16>,
                      publishes: seq<Node<PubInfo>>, sent: seq<nat>)
    reads client, client.list_pub_wait_ack, client.list_pub_wait_ack.nodes
  {
    && client.Valid() && client.first_id == start && client.draws == Draws(ops)
    && client.issued == Elements(publishes)
    && SoFar(start, ops, returned, publishes, sent, client.Waiting(), client.acked, client.drawn_at, client.due,
             client.draws)
  }

  /** The publish of a run's next operation, if it returns an id, behind the others. */
  method DoSend(client: Client, ghost start: uint16, ghost ops: seq<Op>, op: Op, returned: seq<uint16>,
                ghost publishes: seq<Node<PubInfo>>, ghost sent: seq<nat>)
      returns (returned': seq<uint16>, ghost publishes': seq<Node<PubInfo>>, ghost sent': seq<nat>)
    requires Ran(client, start, ops, returned, publishes, sent) && op.Send? && op.send_rc <= 0
    modifies client, client.list_pub_wait_ack, client.list_pub_wait_ack.Footprint()
    ensures Ran(client, start, ops + [op], returned', publishes', sent')
    ensures fresh(client.list_pub_wait_ack.Footprint() - old(client.list_pub_wait_ack.Footprint()))
  {
    hide List.Valid, IdAt, Rising, Client.Numbered, Client.Accounted, Logged, SoFar, Draws;
    ghost var drawn_at, draws, due := client.drawn_at, client.draws, client.due;
    ghost var w, acked := client.Waiting(), client.acked;
    assert (ops + [op])[..|ops|] == ops;
    DrawsNext(ops + [op], |ops|);
    assert (ops + [op])[..|ops| + 1] == ops + [op];
    SoFarIs(start, ops, returned, publishes, sent, w, acked, drawn_at, due, draws);
    client.OneFate();
    var rc := client.Publish(op.qos, op.packet_len, op.send_rc, op.deadline);
    returned', publishes', sent' := returned, publishes, sent;
    if rc <= 0 {
      AfterQuiet(start, ops, op, returned, publishes, sent, w, acked, client.Waiting(), drawn_at, due,
                 draws, client.drawn_at, client.due, client.draws);
    } else {
      ghost var n := client.Waiting()[|client.Waiting()| - 1];
      LastAdded(client.Waiting());
      AfterQuiet(start, ops, op, returned, publishes, sent, w, acked, client.Waiting(), drawn_at, due,
                 draws, client.drawn_at, client.due, client.draws);
      LoggedStays(start, returned, publishes, drawn_at, draws, client.drawn_at, draws);
      AfterSent(start, ops + [op], returned, publishes, sent, client.Waiting(), acked, client.drawn_at,
                client.due, client.draws, rc, n);
      LastAdded(publishes + [n]);
      assert (publishes + [n])[..|publishes|] == publishes;
      returned', publishes', sent' := returned + [rc], publishes + [n], sent + [|ops|];
    }
  }

  /** A run's next operation when it is no publish. */
  method DoOther(client: Client, ghost start: uint16, ghost ops: seq<Op>, op: Op, ghost returned: seq<uint16>,
                 ghost publishes: seq<Node<PubInfo>>, ghost sent: seq<nat>)
    requires Ran(client, start, ops, returned, publishes, sent) && !op.Send?
    modifies client, client.list_pub_wait_ack, client.list_pub_wait_ack.Footprint()
    ensures Ran(client, start, ops + [op], returned, publishes, sent)
    ensures fresh(client.list_pub_wait_ack.Footprint() - old(client.list_pub_wait_ack.Footprint()))
  {
    hide List.Valid, IdAt, Rising, Client.Numbered, Client.Accounted, Lapsed, Unexpired, First, Vals, NoneNull, Logged,
         SoFar, Answered, Swept, Draws;
    ghost var drawn_at, draws, due := client.drawn_at, client.draws, client.due;
    ghost var w, acked := client.Waiting(), client.acked;
    assert (ops + [op])[..|ops|] == ops && (ops + [op])[..|ops| + 1] == ops + [op];
    DrawsNext(ops + [op], |ops|);
    SoFarIs(start, ops, returned, publishes, sent, w, acked, drawn_at, due, draws);
    client.OneFate();
    match op {
      case DrawId =>
        var _ := client.GetNextPacketId();
        AfterQuiet(start, ops, op, returned, publishes, sent, w, acked, client.Waiting(), drawn_at, due,
                   draws, client.drawn_at, client.due, client.draws);
      case Ack(parse_rc, packet_id) =>
        var _, _ := client.HandlePuback(parse_rc, packet_id);
        AfterAck(start, ops, returned, publishes, sent, w, acked, client.Waiting(), client.acked, drawn_at,
                 due, draws, parse_rc, packet_id);
      case Tick(now) =>
        var _ := client.CheckPubTimeout(now);
        AfterTick(start, ops, returned, publishes, sent, w, acked, client.Waiting(), drawn_at, due, draws, now);
    }
  }

  lemma NothingRun(client: Client, start: uint16)
    requires client.Valid() && client.Waiting() == [] && client.draws == 0 && client.issued == {}
    requires client.first_id == start
    ensures Ran(client, start, [], [], [], [])
  {
    NothingSoFar(start, client.acked, client.drawn_at, client.due);
  }

  lemma RanIs(client: Client, start: uint16, ops: seq<Op>, returned: seq<uint16>, publishes: seq<Node<PubInfo>>,
              sent: seq<nat>)
    requires Ran(client, start, ops, returned, publishes, sent)
    ensures client.Valid() && client.first_id == start && client.draws == Draws(ops)
    ensures |publishes| == |returned| && Rising(publishes, client.drawn_at)
    ensures |sent| == |returned| && forall i :: 0 <= i < |sent| ==> sent[i] < |ops|
    ensures forall i :: 0 <= i < |returned| ==> returned[i] == IdAt(start, Draws(ops[..sent[i]]))
    ensures forall i, j :: 0 <= i < j < |sent| ==> Draws(ops[..sent[i]]) < Draws(ops[..sent[j]])
    ensures forall n :: n in publishes ==> OnlyOneOf(n in client.Waiting(), n in client.acked, n in client.expired)
    ensures forall n :: n in client.Waiting() || n in client.acked || n in client.expired ==> n in publishes
    ensures |returned| == |client.Waiting()| + |client.acked| + |client.expired|
    ensures |client.Waiting()| <= MAX_REPUB_NUM
    ensures Stories(ops, returned, publishes, sent, client.Waiting(), client.acked, Draws(ops) <= MAX_PACKET_ID)
  {
    hide List.Valid, IdAt, Rising, Client.Numbered, Client.Accounted, Logged, SoFar, Draws, Stories;
    client.IssuedAreCounted();
    SoFarIs(start, ops, returned, publishes, sent, client.Waiting(), client.acked, client.drawn_at, client.due,
            client.draws);
    DistinctCount(publishes);
    client.OneFate();
  }

  /** Over any run: the ids returned are those of rising draws, each to a publish of its own, and each of these
      publishes waits, was acknowledged or timed out, and only one of the three, by an operation of the run after it
      was sent; no other publish waits, and no more than twenty. */
  method Session(start: uint16, ops: seq<Op>)
    returns (client: Client, returned: seq<uint16>, ghost publishes: seq<Node<PubInfo>>, ghost sent: seq<nat>)
    requires forall op :: op in ops && op.Send? ==> op.send_rc <= 0
    ensures client.Valid() && client.first_id == start && client.draws == Draws(ops)
    ensures |publishes| == |returned| && Rising(publishes, client.drawn_at)
    ensures |sent| == |returned| && forall i :: 0 <= i < |sent| ==> sent[i] < |ops|
    ensures forall i :: 0 <= i < |returned| ==> returned[i] == IdAt(start, Draws(ops[..sent[i]]))
    ensures forall i, j :: 0 <= i < j < |sent| ==> Draws(ops[..sent[i]]) < Draws(ops[..sent[j]])
    ensures forall n :: n in publishes ==> OnlyOneOf(n in client.Waiting(), n in client.acked, n in client.expired)
    ensures forall n :: n in client.Waiting() || n in client.acked || n in client.expired ==> n in publishes
    ensures |returned| == |client.Waiting()| + |client.acked| + |client.expired|
    ensures |client.Waiting()| <= MAX_REPUB_NUM
    ensures Stories(ops, returned, publishes, sent, client.Waiting(), client.acked, Draws(ops) <= MAX_PACKET_ID)
  {
    hide List.Valid, IdAt, Rising, Client.Numbered, Client.Accounted, Client.Valid, Logged, SoFar, Draws, Stories, Ran;
    client := new Client(start);
    returned, publishes, sent := [], [], [];
    NothingRun(client, start);
    for i := 0 to |ops|
      invariant Ran(client, start, ops[..i], returned, publishes, sent)
      invariant fresh(client) && fresh(client.list_pub_wait_ack) && fresh(client.list_pub_wait_ack.Footprint())
    {
      assert ops[i] in ops && ops[..i + 1] == ops[..i] + [ops[i]];
      if ops[i].Send? {
        returned, publishes, sent := DoSend(client, start, ops[..i], ops[i], returned, publishes, sent);
      } else {
        DoOther(client, start, ops[..i], ops[i], returned, publishes, sent);
      }
    }
    assert ops[..|ops|] == ops;
    RanIs(client, start, ops, returned, publishes, sent);
  }
}
