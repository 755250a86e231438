/** The doubly linked list behind the client's wait lists. */
module UtilsList {
  import opened Common

  datatype Ptr<V> = Null | Ref(value: V)

  class Node<V> {
    var prev: Node?<V>
    var next: Node?<V>
    var val: Ptr<V>

    constructor (val: Ptr<V>)
      ensures this.val == val && this.prev == null && this.next == null
    {
      this.val, prev, next := val, null, null;
    }
  }

  datatype Direction = LIST_HEAD | LIST_TAIL

  /** What a handler does to one node: the caller's data after it, whether it removes the node, and whether it
      breaks the traversal. */
  datatype Step<S> = Step(data: S, remove: bool, stop: bool)

  type Handle<!S, !V> = Option<(S, V) -> Step<S>>

  // ---- what a traversal does, on values ----

  function Repeat(n: nat): (r: seq<bool>)
    ensures |r| == n
  {
    seq(n, _ => true)
  }

  /** One visit: a node without a value is removed, and no handler means no change. */
  function One<S, V>(val: Ptr<V>, handle: Handle<S, V>, data: S): Step<S> {
    if val.Null? then Step(data, true, false)
    else if handle.None? then Step(data, false, false)
    else handle.value(data, val.value)
  }

  /** Visits the values in order: the caller's data at the end, and which of the values stay. */
  function Visit<S, V>(vals: seq<Ptr<V>>, handle: Handle<S, V>, data: S): (r: (S, seq<bool>))
    ensures |r.1| == |vals|
  {
    if vals == [] then (data, [])
    else
      var step := One(vals[0], handle, data);
      if step.stop then (step.data, [!step.remove] + Repeat(|vals| - 1))
      else
        var (last, stay) := Visit(vals[1..], handle, step.data);
        (last, [!step.remove] + stay)
  }

  /** The elements that stay, in their order. */
  function Select<T>(s: seq<T>, stay: seq<bool>): (r: seq<T>)
    requires |s| == |stay|
    ensures |r| <= |s| && forall x :: x in r ==> x in s
  {
    if s == [] then []
    else Select(s[..|s| - 1], stay[..|s| - 1]) + if stay[|s| - 1] then [s[|s| - 1]] else []
  }

  function Reversed<T>(s: seq<T>): (r: seq<T>)
    ensures |r| == |s| && forall i :: 0 <= i < |s| ==> r[i] == s[|s| - 1 - i]
  {
    seq(|s|, i requires 0 <= i < |s| => s[|s| - 1 - i])
  }

  function InOrder<T>(s: seq<T>, direction: Direction): (r: seq<T>)
    ensures |r| == |s|
  {
    if direction == LIST_HEAD then s else Reversed(s)
  }

  /** A traversal in either direction: what Visit does to the values in the order they are met. */
  function Sweep<S, V>(vals: seq<Ptr<V>>, direction: Direction, handle: Handle<S, V>, data: S): (r: (S, seq<bool>))
    ensures |r.1| == |vals|
  {
    var (last, stay) := Visit(InOrder(vals, direction), handle, data);
    (last, InOrder(stay, direction))
  }

  lemma {:induction false} SelectAppend<T>(a: seq<T>, b: seq<T>, stayA: seq<bool>, stayB: seq<bool>)
    requires |a| == |stayA| && |b| == |stayB|
    ensures Select(a + b, stayA + stayB) == Select(a, stayA) + Select(b, stayB)
  {
    if b == [] {
      assert a + b == a && stayA + stayB == stayA;
    } else {
      var n := |b| - 1;
      SelectAppend(a, b[..n], stayA, stayB[..n]);
      assert (a + b)[..|a| + n] == a + b[..n] && (stayA + stayB)[..|a| + n] == stayA + stayB[..n];
    }
  }

  predicate AllStay(stay: seq<bool>) {
    forall i :: 0 <= i < |stay| ==> stay[i]
  }

  lemma {:induction false} SelectAll<T>(s: seq<T>, stay: seq<bool>)
    requires |s| == |stay| && forall i :: 0 <= i < |stay| ==> stay[i]
    ensures Select(s, stay) == s
  {
    if s != [] {
      SelectAll(s[..|s| - 1], stay[..|s| - 1]);
    }
  }

  /** Where the i-th visit goes. */
  function At(direction: Direction, n: nat, i: nat): int {
    if direction == LIST_HEAD then i else n - 1 - i
  }

  /** The list when i of its elements s have been visited. */
  function Middle<T>(s: seq<T>, stay: seq<bool>, direction: Direction, i: nat): seq<T>
    requires |s| == |stay| && i <= |s|
  {
    if direction == LIST_HEAD then Select(s[..i], stay[..i]) + s[i..]
    else s[..|s| - i] + Select(s[|s| - i..], stay[|s| - i..])
  }

  /** The place in it of the next element to visit. */
  function Place<T>(s: seq<T>, stay: seq<bool>, direction: Direction, i: nat): int
    requires |s| == |stay| && i <= |s|
  {
    if direction == LIST_HEAD then |Select(s[..i], stay[..i])| else |s| - i - 1
  }

  lemma MiddleEnds<T>(s: seq<T>, stay: seq<bool>, direction: Direction)
    requires |s| == |stay|
    ensures Middle(s, stay, direction, 0) == s && Middle(s, stay, direction, |s|) == Select(s, stay)
  {
    assert s[..|s|] == s && s[0..] == s && stay[..|s|] == stay && stay[0..] == stay;
  }

  /** The next visit goes to the element At says, and one after that there is a neighbour or the end. */
  lemma MiddleNext<T>(s: seq<T>, stay: seq<bool>, direction: Direction, i: nat)
    requires |s| == |stay| && i < |s|
    ensures var m, k, on := Middle(s, stay, direction, i), Place(s, stay, direction, i),
                            if direction == LIST_HEAD then 1 else -1;
            && 0 <= k < |m| && m[k] == s[At(direction, |s|, i)]
            && (0 <= k + on < |m| <==> i + 1 < |s|)
            && (i + 1 < |s| ==> m[k + on] == s[At(direction, |s|, i + 1)])
  {}

  /** Taking the element between a and b out. */
  lemma Splice<T>(a: seq<T>, x: T, b: seq<T>)
    ensures a + ([x] + b) == a + [x] + b
    ensures (a + [x] + b)[..|a|] + (a + [x] + b)[|a| + 1..] == a + b
    ensures a + [] + b == a + b && a + ([] + b) == a + b
  {}

  lemma SelectSnoc<T>(s: seq<T>, stay: seq<bool>, i: nat)
    requires |s| == |stay| && i < |s|
    ensures Select(s[..i + 1], stay[..i + 1]) == Select(s[..i], stay[..i]) + if stay[i] then [s[i]] else []
  {
    assert s[..i + 1][..i] == s[..i] && stay[..i + 1][..i] == stay[..i];
  }

  lemma Cut<T>(s: seq<T>, k: nat)
    requires k < |s|
    ensures s[k..] == [s[k]] + s[k + 1..]
  {}

  lemma SelectCons<T>(s: seq<T>, stay: seq<bool>, j: nat)
    requires |s| == |stay| && j < |s|
    ensures Select(s[j..], stay[j..]) == (if stay[j] then [s[j]] else []) + Select(s[j + 1..], stay[j + 1..])
  {
    Cut(s, j);
    Cut(stay, j);
    SelectAppend([s[j]], s[j + 1..], [stay[j]], stay[j + 1..]);
    assert [s[j]][..0] == [] && [stay[j]][..0] == [];
  }

  lemma MiddleStep<T>(s: seq<T>, stay: seq<bool>, direction: Direction, i: nat)
    requires |s| == |stay| && i < |s|
    ensures var m, k := Middle(s, stay, direction, i), Place(s, stay, direction, i);
            && 0 <= k < |m|
            && Middle(s, stay, direction, i + 1)
            == if stay[At(direction, |s|, i)] then m else m[..k] + m[k + 1..]
  {
    hide Select;
    if direction == LIST_HEAD {
      SelectSnoc(s, stay, i);
      Cut(s, i);
      Splice(Select(s[..i], stay[..i]), s[i], s[i + 1..]);
    } else {
      var j := |s| - i - 1;
      SelectCons(s, stay, j);
      assert s[..j + 1] == s[..j] + [s[j]];
      Splice(s[..j], s[j], Select(s[j + 1..], stay[j + 1..]));
    }
  }

  lemma SelectFront<T>(s: seq<T>, stay: seq<bool>, j: nat)
    requires |s| == |stay| && j <= |s| && forall k :: 0 <= k < j ==> stay[k]
    ensures Select(s, stay) == s[..j] + Select(s[j..], stay[j..])
  {
    hide Select;
    assert s == s[..j] + s[j..] && stay == stay[..j] + stay[j..];
    SelectAppend(s[..j], s[j..], stay[..j], stay[j..]);
    SelectAll(s[..j], stay[..j]);
  }

  lemma SelectBack<T>(s: seq<T>, stay: seq<bool>, j: nat)
    requires |s| == |stay| && j <= |s| && forall k :: j <= k < |s| ==> stay[k]
    ensures Select(s, stay) == Select(s[..j], stay[..j]) + s[j..]
  {
    hide Select;
    assert s == s[..j] + s[j..] && stay == stay[..j] + stay[j..];
    SelectAppend(s[..j], s[j..], stay[..j], stay[j..]);
    SelectAll(s[j..], stay[j..]);
  }

  /** Everything not visited in i visits stays. */
  predicate RestStays(stay: seq<bool>, direction: Direction, i: nat) {
    var first, end := if direction == LIST_HEAD then i else 0, if direction == LIST_HEAD then |stay| else |stay| - i;
    forall j :: first <= j < end ==> stay[j]
  }

  /** A traversal that stops here leaves everything it has not visited. */
  lemma MiddleBreak<T>(s: seq<T>, stay: seq<bool>, direction: Direction, i: nat)
    requires |s| == |stay| && i <= |s|
    requires RestStays(stay, direction, i)
    ensures Middle(s, stay, direction, i) == Select(s, stay)
  {
    hide Select;
    if direction == LIST_HEAD {
      SelectBack(s, stay, i);
    } else {
      SelectFront(s, stay, |s| - i);
    }
  }

  /** With i visits done and the caller's data at now, the rest of the traversal is a traversal of the rest. */
  ghost predicate Rest<S, V>(vals: seq<Ptr<V>>, direction: Direction, handle: Handle<S, V>, data: S, i: nat, now: S) {
    var (last, marks) := Visit(InOrder(vals, direction), handle, data);
    i <= |vals| && Visit(InOrder(vals, direction)[i..], handle, now) == (last, marks[i..])
  }

  lemma RestStart<S, V>(vals: seq<Ptr<V>>, direction: Direction, handle: Handle<S, V>, data: S)
    ensures Rest(vals, direction, handle, data, 0, data)
    ensures vals == [] ==> Sweep(vals, direction, handle, data) == (data, [])
  {
    var seen := InOrder(vals, direction);
    assert seen[0..] == seen;
    assert Visit(seen, handle, data).1[0..] == Visit(seen, handle, data).1;
  }

  lemma VisitOne<S, V>(rest: seq<Ptr<V>>, handle: Handle<S, V>, now: S)
    requires rest != []
    ensures var step := One(rest[0], handle, now);
            var (last, marks) := Visit(rest, handle, now);
            && marks[0] == !step.remove
            && (step.stop ==> last == step.data && forall k :: 1 <= k < |rest| ==> marks[k])
            && (!step.stop ==> Visit(rest[1..], handle, step.data) == (last, marks[1..]))
            && (|rest| == 1 ==> last == step.data)
  {
    assert Visit([], handle, One(rest[0], handle, now).data).0 == One(rest[0], handle, now).data;
  }

  lemma AllMarked(stay: seq<bool>, marks: seq<bool>, direction: Direction, i: nat)
    requires |stay| == |marks| && forall k :: i <= k < |marks| ==> marks[k]
    requires forall k :: 0 <= k < |stay| ==>
               var j := At(direction, |stay|, k); 0 <= j < |stay| && stay[j] == marks[k]
    ensures RestStays(stay, direction, i)
  {
    forall j | 0 <= j < |stay| ensures stay[j] == marks[if direction == LIST_HEAD then j else |stay| - 1 - j] {
      var k := if direction == LIST_HEAD then j else |stay| - 1 - j;
      assert At(direction, |stay|, k) == j;
    }
  }

  /** The j-th mark of a sweep is the mark of the visit that met it. */
  lemma SweepAt<S, V>(vals: seq<Ptr<V>>, direction: Direction, handle: Handle<S, V>, data: S)
    ensures var (last, marks) := Visit(InOrder(vals, direction), handle, data);
            && Sweep(vals, direction, handle, data).0 == last
            && forall k :: 0 <= k < |vals| ==>
                 var j := At(direction, |vals|, k);
                 && 0 <= j < |vals| && InOrder(vals, direction)[k] == vals[j]
                 && Sweep(vals, direction, handle, data).1[j] == marks[k]
  {
    hide Visit;
  }

  lemma RestOne<S, V>(vals: seq<Ptr<V>>, direction: Direction, handle: Handle<S, V>, data: S, i: nat, now: S)
    requires i < |vals| && Rest(vals, direction, handle, data, i, now)
    ensures var j, n := At(direction, |vals|, i), |vals|;
            var (last, stay) := Sweep(vals, direction, handle, data);
            && 0 <= j < n
            && var step := One(vals[j], handle, now);
            && stay[j] == !step.remove
            && (step.stop || i + 1 == n ==> step.data == last)
            && (step.stop ==> RestStays(stay, direction, i + 1))
            && (!step.stop ==> Rest(vals, direction, handle, data, i + 1, step.data))
  {
    hide Visit, Sweep, InOrder, One, At;
    var seen := InOrder(vals, direction);
    var marks := Visit(seen, handle, data).1;
    assert seen[i..][1..] == seen[i + 1..] && marks[i..][1..] == marks[i + 1..];
    assert forall k :: i <= k < |vals| ==> marks[k] == marks[i..][k - i];
    VisitOne(seen[i..], handle, now);
    SweepAt(vals, direction, handle, data);
    var stay := Sweep(vals, direction, handle, data).1;
    if forall k :: i < k < |vals| ==> marks[k] {
      AllMarked(stay, marks, direction, i + 1);
    }
  }

  /** The link of a node one place off either end is null. */
  ghost function Link<V>(nodes: seq<Node<V>>, i: int): Node?<V> {
    if 0 <= i < |nodes| then nodes[i] else null
  }

  lemma Inside<V>(nodes: seq<Node<V>>, i: int)
    ensures Link(nodes, i) == if 0 <= i < |nodes| then nodes[i] else null
  {}

  /** The places of a list less its k-th node. */
  lemma LinkWithout<V>(nodes: seq<Node<V>>, k: nat, i: int)
    requires k < |nodes|
    ensures Link(nodes[..k] + nodes[k + 1..], i) == Link(nodes, if i < k then i else i + 1)
  {}

  lemma LinkWith<V>(nodes: seq<Node<V>>, n: Node<V>, i: int)
    ensures Link(nodes + [n], i) == if i == |nodes| then n else Link(nodes, i)
  {}

  ghost predicate Linked<V>(nodes: seq<Node<V>>)
    reads nodes
  {
    forall i :: 0 <= i < |nodes| ==> nodes[i].prev == Link(nodes, i - 1) && nodes[i].next == Link(nodes, i + 1)
  }

  predicate Distinct<V>(nodes: seq<Node<V>>) {
    forall i, j :: 0 <= i < j < |nodes| ==> nodes[i] != nodes[j]
  }

  /** A node stands at one place only. */
  lemma Once<V>(nodes: seq<Node<V>>, k: int)
    requires Distinct(nodes)
    ensures 0 <= k < |nodes| ==> forall i :: 0 <= i < |nodes| && nodes[i] == nodes[k] ==> i == k
  {}

  lemma DistinctWith<V>(nodes: seq<Node<V>>, n: Node<V>)
    requires Distinct(nodes) && n !in nodes
    ensures Distinct(nodes + [n])
  {}

  lemma DistinctBehind<V>(nodes: seq<Node<V>>)
    requires Distinct(nodes) && nodes != []
    ensures Distinct(nodes[1..]) && nodes[0] !in nodes[1..]
  {}

  lemma DistinctWithout<V>(nodes: seq<Node<V>>, k: nat)
    requires Distinct(nodes) && k < |nodes|
    ensures Distinct(nodes[..k] + nodes[k + 1..])
    ensures nodes[k] !in nodes[..k] + nodes[k + 1..]
  {
    var rest := nodes[..k] + nodes[k + 1..];
    assert forall i :: 0 <= i < |rest| ==> rest[i] == nodes[if i < k then i else i + 1];
  }

  ghost function Vals<V>(nodes: seq<Node<V>>): (r: seq<Ptr<V>>)
    reads nodes
    ensures |r| == |nodes|
  {
    seq(|nodes|, i requires 0 <= i < |nodes| reads nodes => nodes[i].val)
  }

  lemma ValsAre<V>(nodes: seq<Node<V>>)
    ensures forall i :: 0 <= i < |nodes| ==> Vals(nodes)[i] == nodes[i].val
  {}

  lemma FirstLink<V>(nodes: seq<Node<V>>, direction: Direction)
    requires |nodes| > 0
    ensures 0 <= At(direction, |nodes|, 0) < |nodes|
    ensures nodes[At(direction, |nodes|, 0)] == Link(nodes, if direction == LIST_HEAD then 0 else |nodes| - 1)
  {}

  lemma NextLink<V>(nodes: seq<Node<V>>, k: int)
    requires Linked(nodes) && 0 <= k < |nodes|
    ensures nodes[k].prev == if k > 0 then nodes[k - 1] else null
    ensures nodes[k].next == if k + 1 < |nodes| then nodes[k + 1] else null
  {}

  /** One turn of a traversal: the node to visit, the one after it, and the list when this one has been. */
  lemma Turn<V>(nodes: seq<Node<V>>, s: seq<Node<V>>, stay: seq<bool>, direction: Direction, i: nat)
    requires |s| == |stay| && i < |s| && Linked(nodes) && nodes == Middle(s, stay, direction, i)
    ensures var k, n := Place(s, stay, direction, i), |s|;
            && 0 <= k < |nodes| && 0 <= At(direction, n, i) < n && nodes[k] == s[At(direction, n, i)]
            && Middle(s, stay, direction, i + 1)
            == (if stay[At(direction, n, i)] then nodes else nodes[..k] + nodes[k + 1..])
            && var next := if direction == LIST_HEAD then nodes[k].next else nodes[k].prev;
            && (i + 1 < n ==> 0 <= At(direction, n, i + 1) < n && next == s[At(direction, n, i + 1)])
            && (i + 1 == n ==> next == null)
  {
    hide Middle, Place, Linked;
    MiddleNext(s, stay, direction, i);
    MiddleStep(s, stay, direction, i);
    NextLink(nodes, Place(s, stay, direction, i));
  }

  class List<V> {
    var head: Node?<V>
    var tail: Node?<V>
    var len: int
    const max_len: int
    /** The nodes from head to tail, and the nodes given back to the allocator. */
    ghost var nodes: seq<Node<V>>
    ghost var freed: set<Node<V>>

    ghost predicate Valid()
      reads this, nodes
    {
      && head == Link(nodes, 0) && tail == Link(nodes, |nodes| - 1)
      && len == |nodes| <= max_len && Linked(nodes) && Distinct(nodes)
      && forall n :: n in nodes ==> n !in freed
    }

    ghost function Footprint(): set<Node<V>>
      reads this
    {
      set n | n in nodes
    }

    constructor (max_len: int)
      requires max_len > 0
      ensures Valid() && this.max_len == max_len && nodes == [] && freed == {}
    {
      head, tail, len, this.max_len, nodes, freed := null, null, 0, max_len, [], {};
    }

    method Push(val: Ptr<V>) returns (node: Node?<V>)
      requires Valid()
      modifies this, Footprint()
      ensures Valid() && freed == old(freed)
      ensures node == null <==> val.Null? || |old(nodes)| == max_len
      ensures node == null ==> nodes == old(nodes)
      ensures node != null ==> fresh(node) && nodes == old(nodes) + [node]
      ensures node != null ==> node.val == val
      ensures forall n :: n in old(nodes) ==> n.val == old(n.val)
    {
      hide Distinct, Link;
      if val.Null? || len >= max_len {
        return null;
      }
      var n := new Node(val);
      assert n !in nodes;
      ghost var was, k := nodes, |nodes|;
      Once(was, k - 1);
      Inside(was, k - 1);
      Inside(was, 0);
      LinkWith(was, n, 0);
      LinkWith(was, n, k);
      if len != 0 {
        n.prev := tail;
        tail.next := n;
        tail := n;
      } else {
        head, tail := n, n;
      }
      len := len + 1;
      nodes := nodes + [n];
      node := n;
      assert Linked(nodes) by {
        forall i | 0 <= i < |nodes|
          ensures nodes[i].prev == Link(nodes, i - 1) && nodes[i].next == Link(nodes, i + 1)
        {
          LinkWith(was, n, i - 1);
          LinkWith(was, n, i + 1);
          Inside(was, i - 1);
          Inside(was, i + 1);
          if i < k {
            assert nodes[i] == was[i];
          }
        }
      }
      DistinctWith(was, n);
    }

    method Pop() returns (val: Ptr<V>)
      requires Valid()
      modifies this, Footprint()
      ensures Valid()
      ensures old(nodes) == [] ==> val == Null && nodes == [] && freed == old(freed)
      ensures old(nodes) != [] ==>
                val == old(nodes[0].val) && nodes == old(nodes)[1..] && freed == old(freed) + {old(nodes)[0]}
      ensures forall n :: n in old(nodes) ==> n.val == old(n.val)
    {
      hide Distinct, Link;
      if len == 0 {
        return Null;
      }
      ghost var was := nodes;
      Once(was, 0);
      Once(was, 1);
      DistinctBehind(was);
      Inside(was, 0);
      Inside(was, 1);
      Inside(was[1..], 0);
      Inside(was[1..], |was| - 2);
      Inside(was, |was| - 1);
      var node := head;
      len := len - 1;
      if len != 0 {
        head := node.next;
        head.prev := null;
      } else {
        head, tail := null, null;
      }
      node.next, node.prev := null, null;
      nodes := nodes[1..];
      val := node.val;
      freed := freed + {node};
      assert Linked(nodes) by {
        forall i | 0 <= i < |nodes|
          ensures nodes[i].prev == Link(nodes, i - 1) && nodes[i].next == Link(nodes, i + 1)
        {
          assert nodes[i] == was[i + 1];
          Inside(nodes, i - 1);
          Inside(was, i);
          Inside(nodes, i + 1);
          Inside(was, i + 2);
        }
      }
    }

    /** Unlinks and frees the k-th node; the caller must hold a node of this list. */
    method Remove(node: Node<V>, ghost k: nat)
      requires Valid() && k < |nodes| && node == nodes[k]
      modifies this, Footprint()
      ensures Valid() && nodes == old(nodes)[..k] + old(nodes)[k + 1..] && freed == old(freed) + {node}
      ensures forall n :: n in old(nodes) ==> n.val == old(n.val)
    {
      hide Distinct, Link;
      ghost var was := nodes;
      Once(was, k - 1);
      Once(was, k);
      Once(was, k + 1);
      DistinctWithout(was, k);
      Inside(was, k - 1);
      Inside(was, k + 1);
      LinkWithout(was, k, 0);
      LinkWithout(was, k, |was| - 2);
      if node.prev != null {
        node.prev.next := node.next;
      } else {
        head := node.next;
      }
      if node.next != null {
        node.next.prev := node.prev;
      } else {
        tail := node.prev;
      }
      if len != 0 {
        len := len - 1;
      }
      nodes := nodes[..k] + nodes[k + 1..];
      freed := freed + {node};
      assert Linked(nodes) by {
        forall i | 0 <= i < |nodes|
          ensures nodes[i].prev == Link(nodes, i - 1) && nodes[i].next == Link(nodes, i + 1)
        {
          ghost var j := if i < k then i else i + 1;
          LinkWithout(was, k, i - 1);
          LinkWithout(was, k, i + 1);
          assert nodes[i] == was[j];
        }
      }
    }

    /** Frees every node from the head on; no node is freed twice or looked at once freed. */
    method Destroy() returns (vals: seq<Ptr<V>>)
      requires Valid()
      modifies this
      ensures nodes == [] && freed == old(freed) + set n | n in old(nodes)
      ensures vals == old(Vals(nodes))
    {
      hide Distinct, Link, Linked;
      var left: int := len;
      var curr := head;
      ghost var s := nodes;
      vals := [];
      nodes := [];
      Inside(s, 0);
      for i := 0 to left
        invariant left == |s| && nodes == [] && curr == if i < |s| then s[i] else null
        invariant freed == old(freed) + set n | n in s[..i]
        invariant vals == Vals(s)[..i]
      {
        NextLink(s, i);
        Once(s, i);
        assert curr !in freed;
        var next := curr.next;
        vals := vals + [curr.val];
        freed := freed + {curr};
        curr := next;
      }
      assert s[..|s|] == s;
    }

    /** Visits one node, which the handler may remove. */
    method ProcessOne<S>(node: Node<V>, handle: Handle<S, V>, data: S, ghost k: nat) returns (last: S, stop: bool)
      requires Valid() && k < |nodes| && node == nodes[k]
      modifies this, Footprint()
      ensures Valid()
      ensures var step := One(old(node.val), handle, data);
              && last == step.data && stop == step.stop
              && nodes == if step.remove then old(nodes)[..k] + old(nodes)[k + 1..] else old(nodes)
      ensures forall n :: n in old(nodes) ==> n.val == old(n.val)
    {
      if node.val.Null? {
        Remove(node, k);
        return data, false;
      }
      last, stop := data, false;
      if handle.Some? {
        var step := handle.value(data, node.val.value);
        last, stop := step.data, step.stop;
        if step.remove {
          Remove(node, k);
        }
      }
    }

    /** Visits every node once, from either end, while the handler may remove the node it is given: what stays
        is what Sweep says of the values, in the old order. */
    method Process<S>(direction: Direction, handle: Handle<S, V>, data: S) returns (last: S)
      requires Valid()
      modifies this, Footprint()
      ensures Valid()
      ensures last == Sweep(old(Vals(nodes)), direction, handle, data).0
      ensures nodes == Select(old(nodes), Sweep(old(Vals(nodes)), direction, handle, data).1)
      ensures forall n :: n in old(nodes) ==> n.val == old(n.val)
    {
      hide Distinct, Link, Linked, Middle, Place, Select, Visit, Sweep, Vals, At;
      ghost var s, vals, n := nodes, Vals(nodes), |nodes|;
      ghost var stay := Sweep(vals, direction, handle, data).1;
      last := data;
      ValsAre(nodes);
      MiddleEnds(s, stay, direction);
      RestStart(vals, direction, handle, data);
      if len == 0 {
        return;
      }
      var next := if direction == LIST_HEAD then head else tail;
      ghost var i: nat := 0;
      FirstLink(nodes, direction);
      while next != null
        invariant Valid() && i <= n && nodes == Middle(s, stay, direction, i)
        invariant i < n ==> 0 <= At(direction, n, i) < n && next == s[At(direction, n, i)]
        invariant i == n ==> next == null && last == Sweep(vals, direction, handle, data).0
        invariant Rest(vals, direction, handle, data, i, last)
        invariant Footprint() <= old(Footprint())
        invariant forall m :: m in s ==> m.val == old(m.val)
        decreases n - i
      {
        var node, stop := next, false;
        ghost var k := Place(s, stay, direction, i);
        Turn(nodes, s, stay, direction, i);
        RestOne(vals, direction, handle, data, i, last);
        assert node.val == vals[At(direction, n, i)] && node !in freed;
        next := if direction == LIST_HEAD then node.next else node.prev;
        i := i + 1;
        assert if i < n then 0 <= At(direction, n, i) < n && next == s[At(direction, n, i)] else next == null;
        last, stop := ProcessOne(node, handle, last, k);
        if stop {
          MiddleBreak(s, stay, direction, i);
          break;
        }
      }
    }
  }

  /** An empty list of a positive bound; no list for any other. */
  method Create<V>(max_len: int) returns (list: List?<V>)
    ensures list == null <==> max_len <= 0
    ensures list != null ==>
              fresh(list) && list.Valid() && list.max_len == max_len && list.nodes == [] && list.freed == {}
  {
    if max_len <= 0 {
      return null;
    }
    list := new List(max_len);
  }

  // ---- what the client's handlers make of it ----

  function Filter<T>(s: seq<T>, p: T -> bool): seq<T> {
    if s == [] then [] else Filter(s[..|s| - 1], p) + if p(s[|s| - 1]) then [s[|s| - 1]] else []
  }

  /** A handler that only removes the values p does not hold of. */
  function Removing<V>(p: V -> bool): Handle<(), V> {
    Some((data: (), v: V) => Step((), !p(v), false))
  }

  predicate Stays<V>(p: V -> bool, v: Ptr<V>) {
    v.Ref? && p(v.value)
  }

  lemma {:induction false} RemovingMarks<V>(vals: seq<Ptr<V>>, p: V -> bool)
    ensures var stay := Visit(vals, Removing(p), ()).1;
            forall i :: 0 <= i < |vals| ==> stay[i] == Stays(p, vals[i])
  {
    if vals != [] {
      RemovingMarks(vals[1..], p);
    }
  }

  lemma {:induction false} SelectIsFilter<T>(s: seq<T>, stay: seq<bool>, p: T -> bool)
    requires |s| == |stay| && forall i :: 0 <= i < |s| ==> stay[i] == p(s[i])
    ensures Select(s, stay) == Filter(s, p)
  {
    if s != [] {
      SelectIsFilter(s[..|s| - 1], stay[..|s| - 1], p);
    }
  }

  /** From either end, removing the current node on a condition leaves the filtered list in its order. */
  lemma SweepFilters<V>(vals: seq<Ptr<V>>, direction: Direction, p: V -> bool)
    ensures Select(vals, Sweep(vals, direction, Removing(p), ()).1) == Filter(vals, v => Stays(p, v))
  {
    var stay := Sweep(vals, direction, Removing(p), ()).1;
    RemovingMarks(InOrder(vals, direction), p);
    assert forall i :: 0 <= i < |vals| ==> stay[i] == Stays(p, vals[i]);
    SelectIsFilter(vals, stay, v => Stays(p, v));
  }

  /** The same handler, keeping a log of the values it is given. */
  function Logging<S, V>(handle: (S, V) -> Step<S>): Handle<(S, seq<V>), V> {
    Some((data: (S, seq<V>), v: V) =>
           var step := handle(data.0, v); Step((step.data, data.1 + [v]), step.remove, step.stop))
  }

  function Values<V>(vals: seq<Ptr<V>>): seq<V> {
    if vals == [] then [] else (if vals[0].Ref? then [vals[0].value] else []) + Values(vals[1..])
  }

  ghost predicate NeverStops<S(!new), V(!new)>(handle: (S, V) -> Step<S>) {
    forall s, v :: !handle(s, v).stop
  }

  /** One logged visit. */
  lemma OneLogged<S, V>(val: Ptr<V>, handle: (S, V) -> Step<S>, data: S, log: seq<V>)
    ensures var step, one := One(val, Some(handle), data), One(val, Logging(handle), (data, log));
            one.data == (step.data, log + Values([val])) && one.remove == step.remove && one.stop == step.stop
  {
    assert [val][1..] == [];
    assert Values([val]) == if val.Ref? then [val.value] else [];
    assert log + [] == log;
  }

  /** The caller's data after k visits. */
  function DataAt<S, V>(vals: seq<Ptr<V>>, handle: (S, V) -> Step<S>, data: S, k: nat): S
    requires k <= |vals|
  {
    if k == 0 then data else DataAt(vals[1..], handle, One(vals[0], Some(handle), data).data, k - 1)
  }

  /** Whether visit k, of those before it none broken off, breaks the traversal. */
  predicate BreaksAt<S, V>(vals: seq<Ptr<V>>, handle: (S, V) -> Step<S>, data: S, k: nat)
    requires k < |vals|
  {
    One(vals[k], Some(handle), DataAt(vals, handle, data, k)).stop
  }

  lemma BreaksNext<S, V>(vals: seq<Ptr<V>>, handle: (S, V) -> Step<S>, data: S, k: nat)
    requires 0 < k < |vals|
    ensures BreaksAt(vals, handle, data, k)
       <==> BreaksAt(vals[1..], handle, One(vals[0], Some(handle), data).data, k - 1)
  {
    hide One;
  }

  lemma NoStop<S(!new), V(!new)>(val: Ptr<V>, handle: (S, V) -> Step<S>, data: S)
    ensures NeverStops(handle) ==> !One(val, Some(handle), data).stop
  {}

  lemma ValuesNothing<V>()
    ensures Values<V>([]) == []
  {}

  lemma ValuesAppend<V>(val: Ptr<V>, vals: seq<Ptr<V>>)
    ensures Values([val] + vals) == Values([val]) + Values(vals)
  {
    assert ([val] + vals)[1..] == vals && [val][1..] == [];
  }

  /** The handler is given each value once, in order, up to the first at which it breaks, and all of them if it
      breaks at none; keeping the log changes nothing else. */
  lemma {:induction false} VisitsEachOnce<S(!new), V(!new)>(
    vals: seq<Ptr<V>>, handle: (S, V) -> Step<S>, data: S, log: seq<V>) returns (met: nat)
    ensures var (last, stay) := Visit(vals, Logging(handle), (data, log));
            && met <= |vals| && last.1 == log + Values(vals[..met])
            && (NeverStops(handle) ==> met == |vals|)
            && (met < |vals| ==> met > 0 && BreaksAt(vals, handle, data, met - 1))
            && (forall k :: 0 <= k < met - 1 ==> !BreaksAt(vals, handle, data, k))
            && Visit(vals, Some(handle), data) == (last.0, stay)
  {
    hide One, Logging, Values;
    if vals == [] {
      ValuesNothing<V>();
      assert log + [] == log;
      return 0;
    }
    OneLogged(vals[0], handle, data, log);
    NoStop(vals[0], handle, data);
    var step := One(vals[0], Some(handle), data);
    if step.stop {
      assert vals[..1] == [vals[0]];
      return 1;
    }
    met := VisitsEachOnce(vals[1..], handle, step.data, log + Values([vals[0]]));
    assert vals[..met + 1] == [vals[0]] + vals[1..][..met];
    ValuesAppend(vals[0], vals[1..][..met]);
    assert !BreaksAt(vals, handle, data, 0);
    forall k | 0 < k < |vals|
      ensures BreaksAt(vals, handle, data, k) <==> BreaksAt(vals[1..], handle, step.data, k - 1)
    {
      BreaksNext(vals, handle, data, k);
    }
    met := met + 1;
  }

  /** A handler that takes out the first value p holds of, hands f of it to the caller, and breaks. */
  function Taking<S, V>(p: V -> bool, f: V -> S): Handle<S, V> {
    Some((data: S, v: V) => if p(v) then Step(f(v), true, true) else Step(data, false, false))
  }

  predicate NoneNull<V>(vals: seq<Ptr<V>>) {
    forall i :: 0 <= i < |vals| ==> vals[i].Ref?
  }

  /** The place of the first value p holds of, or the length. */
  function First<V>(vals: seq<Ptr<V>>, p: V -> bool): (k: nat)
    requires NoneNull(vals)
    ensures k <= |vals| && (forall i :: 0 <= i < k ==> !p(vals[i].value)) && (k < |vals| ==> p(vals[k].value))
  {
    if vals == [] || p(vals[0].value) then 0 else 1 + First(vals[1..], p)
  }

  lemma {:induction false} TakingMarks<S, V>(vals: seq<Ptr<V>>, p: V -> bool, f: V -> S, data: S)
    requires NoneNull(vals)
    ensures var (last, stay) := Visit(vals, Taking(p, f), data);
            var k := First(vals, p);
            && last == (if k < |vals| then f(vals[k].value) else data)
            && forall i :: 0 <= i < |vals| ==> stay[i] == (i != k)
  {
    if vals != [] && !p(vals[0].value) {
      TakingMarks(vals[1..], p, f, data);
    }
  }

  lemma SelectNone<T>(x: T)
    ensures Select([x], [false]) == []
  {
    assert [x][..0] == [] && [false][..0] == [];
  }

  lemma AllButAfter(stay: seq<bool>, k: nat)
    requires k < |stay| && forall i :: 0 <= i < |stay| ==> stay[i] == (i != k)
    ensures AllStay(stay[k + 1..])
  {}

  lemma SelectAllBut<T>(s: seq<T>, stay: seq<bool>, k: nat)
    requires |s| == |stay| && k < |s| && forall i :: 0 <= i < |s| ==> stay[i] == (i != k)
    ensures Select(s, stay) == s[..k] + s[k + 1..]
  {
    hide Select;
    SelectNone(s[k]);
    SelectFront(s, stay, k);
    Cut(s, k);
    Cut(stay, k);
    SelectAppend([s[k]], s[k + 1..], [false], stay[k + 1..]);
    AllButAfter(stay, k);
    SelectAll(s[k + 1..], stay[k + 1..]);
  }

  /** The list less the first value p holds of. */
  lemma TakingFirst<S, V, T>(s: seq<T>, vals: seq<Ptr<V>>, p: V -> bool, f: V -> S, data: S)
    requires NoneNull(vals) && |s| == |vals|
    ensures var (last, stay) := Sweep(vals, LIST_HEAD, Taking(p, f), data);
            var k := First(vals, p);
            && last == (if k < |vals| then f(vals[k].value) else data)
            && Select(s, stay) == if k < |s| then s[..k] + s[k + 1..] else s
  {
    hide Select;
    var stay := Visit(vals, Taking(p, f), data).1;
    TakingMarks(vals, p, f, data);
    if First(vals, p) < |s| {
      SelectAllBut(s, stay, First(vals, p));
    } else {
      SelectAll(s, stay);
    }
  }
}
