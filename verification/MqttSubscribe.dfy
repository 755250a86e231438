/** The subscription table as a finite map. */
module SubTable {
  import opened Common

  const MAX_MESSAGE_HANDLERS := 10

  /** The user's callbacks, by a number. */
  datatype Params = Params(qos: int, handler: nat)

  datatype SubStatus = SUB_ACK_NOT_RECEIVED | SUB_ACK_RECEIVED

  /** One slot; a slot without a filter is free, whatever else it still holds. */
  datatype SubTopicHandle = SubTopicHandle(topic_filter: Option<string>, params: Params, status: SubStatus)

  datatype Entry = Entry(params: Params, status: SubStatus)

  predicate StandsAt(s: string, sub: string, i: int) {
    0 <= i <= |s| - |sub| && s[i..i + |sub|] == sub
  }

  predicate Contains(s: string, sub: string) {
    exists i :: 0 <= i <= |s| && StandsAt(s, sub, i)
  }

  /** A filter the lookups take for any slot. */
  predicate Wild(filter: string) {
    Contains(filter, "/#") || Contains(filter, "/+")
  }

  predicate Holds(h: SubTopicHandle, filter: string) {
    h.topic_filter == Some(filter)
  }

  predicate NoDuplicates(slots: seq<SubTopicHandle>) {
    forall i, j :: 0 <= i < j < |slots| && slots[i].topic_filter.Some? ==> slots[i].topic_filter != slots[j].topic_filter
  }

  function TableOf(slots: seq<SubTopicHandle>): map<string, Entry> {
    if slots == [] then map[]
    else
      var h, front := slots[|slots| - 1], TableOf(slots[..|slots| - 1]);
      if h.topic_filter.None? then front else front[h.topic_filter.value := Entry(h.params, h.status)]
  }

  function Occupied(slots: seq<SubTopicHandle>): (n: nat)
    ensures n <= |slots|
  {
    if slots == [] then 0
    else Occupied(slots[..|slots| - 1]) + if slots[|slots| - 1].topic_filter.Some? then 1 else 0
  }

  /** The table has a filter when some slot holds it, and the entry of that slot. */
  lemma {:induction false} InTable(slots: seq<SubTopicHandle>, filter: string)
    requires NoDuplicates(slots)
    ensures filter in TableOf(slots) <==> exists i :: 0 <= i < |slots| && Holds(slots[i], filter)
    ensures forall i :: 0 <= i < |slots| && Holds(slots[i], filter) ==>
                          filter in TableOf(slots) && TableOf(slots)[filter] == Entry(slots[i].params, slots[i].status)
  {
    if slots != [] {
      var n := |slots| - 1;
      InTable(slots[..n], filter);
      assert forall i :: 0 <= i < n ==> slots[..n][i] == slots[i];
    }
  }

  /** One entry for each slot in use; ten of them fill the table. */
  lemma {:induction false} TableSize(slots: seq<SubTopicHandle>)
    requires NoDuplicates(slots)
    ensures |TableOf(slots)| == Occupied(slots)
    ensures Occupied(slots) == |slots| <==> forall i :: 0 <= i < |slots| ==> slots[i].topic_filter.Some?
  {
    if slots != [] {
      var n := |slots| - 1;
      TableSize(slots[..n]);
      if slots[n].topic_filter.Some? {
        InTable(slots[..n], slots[n].topic_filter.value);
        var m, f := TableOf(slots[..n]), slots[n].topic_filter.value;
        assert f !in m;
        assert m[f := Entry(slots[n].params, slots[n].status)].Keys == m.Keys + {f};
      }
    }
  }

  /** Filling a slot that is free, or that holds the filter already, enters the filter in the table. */
  lemma SlotFilled(slots: seq<SubTopicHandle>, i: nat, h: SubTopicHandle)
    requires NoDuplicates(slots) && i < |slots| && h.topic_filter.Some?
    requires forall k :: 0 <= k < |slots| && Holds(slots[k], h.topic_filter.value) ==> k == i
    requires slots[i].topic_filter.None? || Holds(slots[i], h.topic_filter.value)
    ensures NoDuplicates(slots[i := h])
    ensures TableOf(slots[i := h]) == TableOf(slots)[h.topic_filter.value := Entry(h.params, h.status)]
  {
    var after := slots[i := h];
    var f := h.topic_filter.value;
    var want := TableOf(slots)[f := Entry(h.params, h.status)];
    forall g ensures g in TableOf(after) <==> g in want
             ensures g in want ==> TableOf(after)[g] == want[g]
    {
      InTable(slots, g);
      InTable(after, g);
      assert Holds(after[i], f);
      if g != f && g in want {
        var k :| 0 <= k < |slots| && Holds(slots[k], g);
        assert Holds(after[k], g);
      }
      if g != f && g in TableOf(after) {
        var k :| 0 <= k < |slots| && Holds(after[k], g);
        assert Holds(slots[k], g);
      }
    }
  }

  function ClearedSlot(h: SubTopicHandle, filter: string): SubTopicHandle {
    if Wild(filter) || Holds(h, filter) then h.(topic_filter := None) else h
  }

  /** The slots once a filter is removed: freed where they hold it, and all of them for a wild filter. */
  function Cleared(slots: seq<SubTopicHandle>, filter: string): (r: seq<SubTopicHandle>)
    ensures |r| == |slots|
  {
    seq(|slots|, i requires 0 <= i < |slots| => ClearedSlot(slots[i], filter))
  }

  function Removed(table: map<string, Entry>, filter: string): map<string, Entry> {
    if Wild(filter) then map[] else table - {filter}
  }

  /** Removing takes out just the one filter exactly when it is not wild, or nothing else is there to lose. */
  lemma RemovesOne(table: map<string, Entry>, filter: string)
    ensures Removed(table, filter) == table - {filter} <==> !Wild(filter) || table.Keys <= {filter}
  {
    var left := table - {filter};
    assert left.Keys == table.Keys - {filter};
    assert left == map[] <==> left.Keys == {};
  }

  /** Unsubscribing "a/#" empties a table that holds another filter. */
  lemma WildRemovesOthers(other: Entry)
    ensures Wild("a/#") && Removed(map["b" := other], "a/#") == map[] != map["b" := other] - {"a/#"}
  {
    assert StandsAt("a/#", "/#", 1);
    assert "b" in map["b" := other] - {"a/#"};
  }

  lemma SlotsCleared(slots: seq<SubTopicHandle>, filter: string)
    requires NoDuplicates(slots)
    ensures NoDuplicates(Cleared(slots, filter)) && TableOf(Cleared(slots, filter)) == Removed(TableOf(slots), filter)
  {
    hide Wild;
    var after, want := Cleared(slots, filter), Removed(TableOf(slots), filter);
    forall g ensures g in TableOf(after) <==> g in want
             ensures g in want ==> TableOf(after)[g] == want[g]
    {
      InTable(slots, g);
      InTable(after, g);
      if g in want {
        var k :| 0 <= k < |slots| && Holds(slots[k], g);
        assert Holds(after[k], g);
      }
      if g in TableOf(after) {
        var k :| 0 <= k < |slots| && Holds(after[k], g);
        assert Holds(slots[k], g);
      }
    }
  }
}

/** Subscribing: the table, and the requests that wait for their SUBACK or UNSUBACK. */
module MqttSubscribe {
  import opened Common
  import opened PacketIds
  import opened SubTable
  import opened UtilsList

  const QCLOUD_RET_SUCCESS := 0
  const QCLOUD_ERR_FAILURE := -1001
  const QCLOUD_ERR_BUF_TOO_SHORT := -119
  const QCLOUD_ERR_MQTT_SUB := -108
  const QCLOUD_ERR_MQTT_UNSUB_FAIL := -121
  const MQTT_ERR_SHORT_BUFFER := -2

  datatype SubInfo = SubInfo(packet_id: uint16, is_sub: bool, topic_filter: string)

  function HasId(id: uint16): SubInfo -> bool {
    (v: SubInfo) => v.packet_id == id
  }

  /** Takes the first request with the id acknowledged, and gives its filter. */
  function PopInfo(id: uint16): Handle<Option<string>, SubInfo> {
    Taking(HasId(id), (v: SubInfo) => Some(v.topic_filter))
  }

  /** What happens to a filter: the user subscribes, or a SUBACK for it is handled with its code. */
  datatype Event = Subscribed(filter: string) | Acknowledged(filter: string, code: int)

  /** Since the filter was last subscribed, a SUBACK with a code other than 0x80 was handled for it. */
  predicate Granted(history: seq<Event>, filter: string) {
    if history == [] then false
    else
      var last := history[|history| - 1];
      if last == Subscribed(filter) then false
      else if last.Acknowledged? && last.filter == filter && last.code != 0x80 then true
      else Granted(history[..|history| - 1], filter)
  }

  lemma GrantedNext(history: seq<Event>, e: Event, filter: string)
    ensures Granted(history + [e], filter) ==
            if e == Subscribed(filter) then false
            else if e.Acknowledged? && e.filter == filter && e.code != 0x80 then true
            else Granted(history, filter)
  {
    assert (history + [e])[..|history|] == history;
  }

  /** Every entry is ready exactly when it was granted, or when no SUBACK is waited for. */
  ghost predicate ReadyWhenGranted(table: map<string, Entry>, history: seq<Event>, default_subscribe: bool) {
    forall f :: f in table ==>
                  (table[f].status == SUB_ACK_RECEIVED <==> default_subscribe || Granted(history, f))
  }

  /** What becomes of a request: serialized, queued behind the others, sent. */
  function Outcome(packet_len: int, waiting: nat, send_rc: int): (rc: int)
    ensures send_rc <= 0 ==> rc <= 0
  {
    if packet_len < 0 then
      if packet_len == MQTT_ERR_SHORT_BUFFER then QCLOUD_ERR_BUF_TOO_SHORT else QCLOUD_ERR_FAILURE
    else if waiting == MAX_MESSAGE_HANDLERS then QCLOUD_ERR_FAILURE
    else send_rc
  }

  /** Subscribing keeps entries ready when granted, whether the new entry stays or goes again. */
  lemma AfterSubscribed(table: map<string, Entry>, history: seq<Event>, d: bool, filter: string, entry: Entry)
    requires ReadyWhenGranted(table, history, d) && (entry.status == SUB_ACK_RECEIVED <==> d)
    ensures var after := table[filter := entry];
            && ReadyWhenGranted(after, history + [Subscribed(filter)], d)
            && Removed(after, filter) == Removed(table, filter)
            && ReadyWhenGranted(Removed(table, filter), history + [Subscribed(filter)], d)
  {
    hide Granted, Wild;
    forall f ensures Granted(history + [Subscribed(filter)], f) == (f != filter && Granted(history, f)) {
      GrantedNext(history, Subscribed(filter), f);
    }
  }

  lemma AfterRemoved(table: map<string, Entry>, history: seq<Event>, d: bool, filter: string)
    requires ReadyWhenGranted(table, history, d)
    ensures ReadyWhenGranted(Removed(table, filter), history, d)
  {
    hide Granted, Wild;
  }

  /** What a SUBACK makes of the table. */
  function Answered(table: map<string, Entry>, filter: string, code: int): map<string, Entry> {
    if code == 0x80 then Removed(table, filter)
    else if filter in table then table[filter := Entry(table[filter].params, SUB_ACK_RECEIVED)]
    else table
  }

  lemma AfterAcknowledged(table: map<string, Entry>, history: seq<Event>, d: bool, filter: string, code: int)
    requires ReadyWhenGranted(table, history, d)
    ensures ReadyWhenGranted(Answered(table, filter, code), history + [Acknowledged(filter, code)], d)
  {
    hide Granted, Wild;
    forall f ensures Granted(history + [Acknowledged(filter, code)], f) ==
                     ((f == filter && code != 0x80) || Granted(history, f))
    {
      GrantedNext(history, Acknowledged(filter, code), f);
    }
  }

  lemma {:induction false} EmptyTable(slots: seq<SubTopicHandle>)
    requires forall i :: 0 <= i < |slots| ==> slots[i].topic_filter.None?
    ensures TableOf(slots) == map[] && NoDuplicates(slots)
  {
    if slots != [] {
      EmptyTable(slots[..|slots| - 1]);
    }
  }

  lemma OneSlot(slots: seq<SubTopicHandle>, filter: string)
    requires NoDuplicates(slots)
    ensures forall i, j :: 0 <= i < |slots| && 0 <= j < |slots| && Holds(slots[i], filter) && Holds(slots[j], filter) ==>
                             i == j
  {}

  /** The part of the client that subscribes. */
  class Client {
    const sub_handles: array<SubTopicHandle>
    const list_sub_wait_ack: List<SubInfo>
    const default_subscribe: bool
    var next_packet_id: uint16
    ghost var history: seq<Event>

    ghost function Table(): map<string, Entry>
      reads sub_handles
    {
      TableOf(sub_handles[..])
    }

    ghost predicate Valid()
      reads this, sub_handles, list_sub_wait_ack, list_sub_wait_ack.nodes
    {
      && sub_handles.Length == MAX_MESSAGE_HANDLERS && NoDuplicates(sub_handles[..])
      && list_sub_wait_ack.Valid() && list_sub_wait_ack.max_len == MAX_MESSAGE_HANDLERS
      && NoneNull(Vals(list_sub_wait_ack.nodes))
      && ReadyWhenGranted(Table(), history, default_subscribe)
    }

    /** The requests that wait, oldest first. */
    ghost function Waiting(): seq<Ptr<SubInfo>>
      reads list_sub_wait_ack, list_sub_wait_ack.nodes
    {
      Vals(list_sub_wait_ack.nodes)
    }

    constructor (start: uint16, default_subscribe: bool)
      ensures Valid() && Table() == map[] && Waiting() == [] && history == []
      ensures next_packet_id == start && this.default_subscribe == default_subscribe
      ensures fresh(sub_handles) && fresh(list_sub_wait_ack)
    {
      sub_handles := new SubTopicHandle[10](_ => SubTopicHandle(None, Params(0, 0), SUB_ACK_NOT_RECEIVED));
      list_sub_wait_ack := new List(MAX_MESSAGE_HANDLERS);
      next_packet_id, this.default_subscribe, history := start, default_subscribe, [];
      new;
      EmptyTable(sub_handles[..]);
    }

    /** Removes a filter; for a wild one, everything. */
    method RemoveSubHandleFromArray(topic_filter: string) returns (topic_exists: bool)
      requires sub_handles.Length == MAX_MESSAGE_HANDLERS && NoDuplicates(sub_handles[..])
      modifies sub_handles
      ensures NoDuplicates(sub_handles[..]) && Table() == Removed(old(Table()), topic_filter)
      ensures topic_exists <==> Wild(topic_filter) || topic_filter in old(Table())
    {
      hide Wild, NoDuplicates, TableOf;
      ghost var was := sub_handles[..];
      topic_exists := false;
      for i := 0 to MAX_MESSAGE_HANDLERS
        invariant forall k :: 0 <= k < i ==> sub_handles[k] == ClearedSlot(was[k], topic_filter)
        invariant forall k :: i <= k < MAX_MESSAGE_HANDLERS ==> sub_handles[k] == was[k]
        invariant topic_exists <==> exists k :: 0 <= k < i && (Holds(was[k], topic_filter) || Wild(topic_filter))
      {
        if sub_handles[i].topic_filter == Some(topic_filter) || Wild(topic_filter) {
          sub_handles[i] := sub_handles[i].(topic_filter := None);
          topic_exists := true;
        }
      }
      assert sub_handles[..] == Cleared(was, topic_filter);
      SlotsCleared(was, topic_filter);
      InTable(was, topic_filter);
      assert Wild(topic_filter) ==> Holds(was[0], topic_filter) || Wild(topic_filter);
    }

    /** Enters a filter, in the slot it has or the first free one. */
    method AddSubHandleToArray(sub_handle: SubTopicHandle) returns (rc: int)
      requires sub_handles.Length == MAX_MESSAGE_HANDLERS && NoDuplicates(sub_handles[..])
      requires sub_handle.topic_filter.Some?
      modifies sub_handles
      ensures NoDuplicates(sub_handles[..])
      ensures var f := sub_handle.topic_filter.value;
              if f in old(Table()) || |old(Table())| < MAX_MESSAGE_HANDLERS
              then rc == 0 && Table() == old(Table())[f := Entry(sub_handle.params, sub_handle.status)]
              else rc == QCLOUD_ERR_FAILURE && Table() == old(Table())
    {
      hide NoDuplicates, TableOf;
      ghost var was, f := sub_handles[..], sub_handle.topic_filter.value;
      TableSize(was);
      InTable(was, f);
      OneSlot(was, f);
      var i_free := -1;
      for i := 0 to MAX_MESSAGE_HANDLERS
        invariant sub_handles[..] == was && -1 <= i_free < i
        invariant i_free >= 0 ==> was[i_free].topic_filter.None?
        invariant forall k :: 0 <= k < i ==>
                                !Holds(was[k], f) && (was[k].topic_filter.None? ==> i_free >= 0)
      {
        if sub_handles[i].topic_filter.Some? {
          if sub_handles[i].topic_filter == sub_handle.topic_filter {
            i_free := i;
            sub_handles[i] := sub_handles[i].(topic_filter := None);
            break;
          }
        } else {
          i_free := if i_free == -1 then i else i_free;
        }
      }
      if i_free == -1 {
        return QCLOUD_ERR_FAILURE;
      }
      sub_handles[i_free] := sub_handle;
      SlotFilled(was, i_free, sub_handle);
      assert sub_handles[..] == was[i_free := sub_handle];
      return QCLOUD_RET_SUCCESS;
    }

    /** Sets the status of a filter the table has. */
    method SetSubHandleStatusToArray(topic_filter: string, status: SubStatus)
      requires sub_handles.Length == MAX_MESSAGE_HANDLERS && NoDuplicates(sub_handles[..])
      modifies sub_handles
      ensures NoDuplicates(sub_handles[..])
      ensures Table() == if topic_filter in old(Table())
                         then old(Table())[topic_filter := Entry(old(Table())[topic_filter].params, status)]
                         else old(Table())
    {
      hide NoDuplicates, TableOf;
      ghost var was := sub_handles[..];
      InTable(was, topic_filter);
      OneSlot(was, topic_filter);
      for i := 0 to MAX_MESSAGE_HANDLERS
        invariant sub_handles[..] == was && forall k :: 0 <= k < i ==> !Holds(was[k], topic_filter)
      {
        if sub_handles[i].topic_filter == Some(topic_filter) {
          ghost var h := was[i].(status := status);
          SlotFilled(was, i, h);
          sub_handles[i] := sub_handles[i].(status := status);
          assert sub_handles[..] == was[i := h];
          return;
        }
      }
    }

    method GetNextPacketId() returns (id: uint16)
      modifies `next_packet_id
      ensures id == next_packet_id == Next(old(next_packet_id))
    {
      next_packet_id := if MAX_PACKET_ID == next_packet_id then 1 else next_packet_id + 1;
      id := next_packet_id;
    }

    /** Queues a request, sends it, and takes it back when sending fails. */
    method PushAndSend(info: SubInfo, packet_len: int, send_rc: int) returns (rc: int)
      requires Valid()
      modifies list_sub_wait_ack, list_sub_wait_ack.Footprint()
      ensures Valid()
      ensures rc == Outcome(packet_len, |old(Waiting())|, send_rc)
      ensures Waiting() == old(Waiting()) + if rc == 0 then [Ref(info)] else []
    {
      hide List.Valid, NoDuplicates, TableOf, ReadyWhenGranted, Granted;
      if packet_len < 0 {
        return if packet_len == MQTT_ERR_SHORT_BUFFER then QCLOUD_ERR_BUF_TOO_SHORT else QCLOUD_ERR_FAILURE;
      }
      ghost var was := list_sub_wait_ack.nodes;
      var node := list_sub_wait_ack.Push(Ref(info));
      if node == null {
        assert Waiting() == old(Waiting());
        return QCLOUD_ERR_FAILURE;
      }
      if send_rc != 0 {
        list_sub_wait_ack.Remove(node, |was|);
        assert list_sub_wait_ack.nodes == was;
      }
      rc := send_rc;
      assert Waiting() == old(Waiting()) + if rc == 0 then [Ref(info)] else [];
    }

    lemma TableFits()
      requires Valid()
      ensures |Table()| <= MAX_MESSAGE_HANDLERS
    {
      TableSize(sub_handles[..]);
    }

    /** Subscribes to a filter: the table has it at once, and loses it again when the request cannot be made. */
    method Subscribe(topic_filter: string, params: Params, packet_len: int, send_rc: int) returns (rc: int)
      requires Valid() && send_rc <= 0
      modifies this, sub_handles, list_sub_wait_ack, list_sub_wait_ack.Footprint()
      ensures Valid() && history == old(history) + [Subscribed(topic_filter)]
      ensures var full := topic_filter !in old(Table()) && |old(Table())| == MAX_MESSAGE_HANDLERS;
              var sent := Outcome(packet_len, |old(Waiting())|, send_rc);
              && rc == (if full then QCLOUD_ERR_FAILURE else if default_subscribe then 0
                        else if sent == 0 then Next(old(next_packet_id)) else sent)
              && Table() == (if rc < 0 then Removed(old(Table()), topic_filter)
                             else old(Table())[topic_filter := Entry(params, if default_subscribe then SUB_ACK_RECEIVED
                                                                             else SUB_ACK_NOT_RECEIVED)])
              && Waiting() == old(Waiting())
                              + (if rc > 0 then [Ref(SubInfo(rc, true, topic_filter))] else [])
              && next_packet_id == if full || default_subscribe then old(next_packet_id) else Next(old(next_packet_id))
    {
      hide List.Valid, NoDuplicates, TableOf, ReadyWhenGranted, Removed, Outcome;
      var status := if default_subscribe then SUB_ACK_RECEIVED else SUB_ACK_NOT_RECEIVED;
      ghost var table, log := Table(), history;
      TableFits();
      var sub_handle := SubTopicHandle(Some(topic_filter), params, status);
      rc := AddSubHandleToArray(sub_handle);
      history := history + [Subscribed(topic_filter)];
      AfterSubscribed(table, log, default_subscribe, topic_filter, Entry(params, status));
      if rc != 0 {
        var _ := RemoveSubHandleFromArray(topic_filter);
        return;
      }
      if default_subscribe {
        return 0;
      }
      var packet_id := GetNextPacketId();
      rc := PushAndSend(SubInfo(packet_id, true, topic_filter), packet_len, send_rc);
      if rc != 0 {
        var _ := RemoveSubHandleFromArray(topic_filter);
        return;
      }
      rc := packet_id;
    }

    /** Unsubscribes from a filter, which leaves the table whatever becomes of the request. */
    method Unsubscribe(topic_filter: string, packet_len: int, send_rc: int) returns (rc: int)
      requires Valid() && send_rc <= 0
      modifies this, sub_handles, list_sub_wait_ack, list_sub_wait_ack.Footprint()
      ensures Valid() && history == old(history)
      ensures Table() == Removed(old(Table()), topic_filter)
      ensures var known := Wild(topic_filter) || topic_filter in old(Table());
              var sent := Outcome(packet_len, |old(Waiting())|, send_rc);
              && rc == (if !known then QCLOUD_ERR_MQTT_UNSUB_FAIL
                        else if sent == 0 then Next(old(next_packet_id)) else sent)
              && Waiting() == old(Waiting())
                              + (if rc > 0 then [Ref(SubInfo(rc, false, topic_filter))] else [])
              && next_packet_id == if known then Next(old(next_packet_id)) else old(next_packet_id)
    {
      hide List.Valid, NoDuplicates, TableOf, ReadyWhenGranted, Wild;
      AfterRemoved(Table(), history, default_subscribe, topic_filter);
      var topic_exists := RemoveSubHandleFromArray(topic_filter);
      if !topic_exists {
        return QCLOUD_ERR_MQTT_UNSUB_FAIL;
      }
      var packet_id := GetNextPacketId();
      rc := PushAndSend(SubInfo(packet_id, false, topic_filter), packet_len, send_rc);
      if rc != 0 {
        return;
      }
      rc := packet_id;
    }

    /** Takes the first request with the id acknowledged off the list; its filter, if there is one. */
    method PopSubInfoFromList(packet_id: uint16) returns (filter: Option<string>)
      requires Valid()
      modifies list_sub_wait_ack, list_sub_wait_ack.Footprint()
      ensures Valid() && NoneNull(old(Waiting()))
      ensures var k := First(old(Waiting()), HasId(packet_id));
              if k < |old(Waiting())|
              then
                && filter == Some(old(Waiting())[k].value.topic_filter)
                && Waiting() == old(Waiting())[..k] + old(Waiting())[k + 1..]
              else filter == None && Waiting() == old(Waiting())
    {
      hide List.Valid, NoDuplicates, TableOf, Granted, ReadyWhenGranted, First, Sweep, Select;
      ghost var was, vals := list_sub_wait_ack.nodes, Waiting();
      ghost var k := First(vals, HasId(packet_id));
      TakingFirst(was, vals, HasId(packet_id), (v: SubInfo) => Some(v.topic_filter), None);
      filter := list_sub_wait_ack.Process(LIST_HEAD, PopInfo(packet_id), None);
      assert Waiting() == if k < |vals| then vals[..k] + vals[k + 1..] else vals;
    }

    /** Handles a SUBACK: a waiting filter becomes ready, or leaves the table on the code 0x80. */
    method HandleSuback(parse_rc: int, packet_id: uint16, granted_qos: int) returns (rc: int)
      requires Valid()
      modifies this, sub_handles, list_sub_wait_ack, list_sub_wait_ack.Footprint()
      ensures Valid() && NoneNull(old(Waiting())) && next_packet_id == old(next_packet_id)
      ensures var k := First(old(Waiting()), HasId(packet_id));
              if parse_rc != 0 || k == |old(Waiting())| then
                rc == parse_rc && Table() == old(Table()) && Waiting() == old(Waiting()) && history == old(history)
              else
                var f := old(Waiting())[k].value.topic_filter;
                && Waiting() == old(Waiting())[..k] + old(Waiting())[k + 1..]
                && history == old(history) + [Acknowledged(f, granted_qos)]
                && rc == (if granted_qos == 0x80 then QCLOUD_ERR_MQTT_SUB else 0)
                && Table() == Answered(old(Table()), f, granted_qos)
    {
      hide List.Valid, NoDuplicates, TableOf, ReadyWhenGranted, Wild, First;
      if parse_rc != 0 {
        return parse_rc;
      }
      ghost var log := history;
      var filter := PopSubInfoFromList(packet_id);
      if filter.None? {
        return QCLOUD_RET_SUCCESS;
      }
      history := history + [Acknowledged(filter.value, granted_qos)];
      AfterAcknowledged(Table(), log, default_subscribe, filter.value, granted_qos);
      rc := 0;
      if granted_qos == 0x80 {
        var _ := RemoveSubHandleFromArray(filter.value);
        rc := QCLOUD_ERR_MQTT_SUB;
      } else {
        SetSubHandleStatusToArray(filter.value, SUB_ACK_RECEIVED);
      }
    }

    /** Handles an UNSUBACK: the request waits no longer. */
    method HandleUnsuback(parse_rc: int, packet_id: uint16) returns (rc: int)
      requires Valid()
      modifies list_sub_wait_ack, list_sub_wait_ack.Footprint()
      ensures Valid() && rc == parse_rc && NoneNull(old(Waiting()))
      ensures var k := First(old(Waiting()), HasId(packet_id));
              Waiting() == if parse_rc == 0 && k < |old(Waiting())| then old(Waiting())[..k] + old(Waiting())[k + 1..]
                           else old(Waiting())
    {
      rc := parse_rc;
      if parse_rc == 0 {
        var _ := PopSubInfoFromList(packet_id);
      }
    }

    /** A filter is ready when it is in the table and was granted since it was last subscribed, or when the
        client waits for no SUBACK; asked for a wild filter, the answer is that of the first slot. */
    method IsSubReady(topic_filter: string) returns (ready: bool)
      requires Valid()
      ensures !Wild(topic_filter) ==>
                (ready <==> topic_filter in Table() && (default_subscribe || Granted(history, topic_filter)))
      ensures Wild(topic_filter) ==> ready == (sub_handles[0].status == SUB_ACK_RECEIVED)
    {
      hide List.Valid, NoDuplicates, TableOf, Granted, Wild;
      InTable(sub_handles[..], topic_filter);
      for i := 0 to MAX_MESSAGE_HANDLERS
        invariant forall k :: 0 <= k < i ==> !Holds(sub_handles[k], topic_filter) && !Wild(topic_filter)
      {
        if sub_handles[i].topic_filter == Some(topic_filter) || Wild(topic_filter) {
          assert !Wild(topic_filter) ==> Holds(sub_handles[..][i], topic_filter);
          return sub_handles[i].status == SUB_ACK_RECEIVED;
        }
      }
      return false;
    }
  }
}
