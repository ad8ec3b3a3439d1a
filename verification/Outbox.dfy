/** The outbox: a singly linked tail queue of messages waiting to be sent or confirmed. */
module OutboxSpec {
  import opened Bytes

  datatype Pending = Queued | Transmitted | Acknowledged | Confirmed

  /** `serial` stands for the address of the item: it tells items with equal contents apart. */
  datatype Item = Item(serial: nat, id: nat, mtype: nat, qos: nat, tick: int, pending: Pending, data: seq<byte>)

  function SizeOf(items: seq<Item>): nat {
    if items == [] then 0 else SizeOf(items[..|items| - 1]) + |items[|items| - 1].data|
  }

  function RemoveAt(items: seq<Item>, i: nat): seq<Item>
    requires i < |items|
  {
    items[..i] + items[i + 1..]
  }

  /** The searches answer `|items|` when nothing fits. */
  function IndexOfId(items: seq<Item>, id: nat): (i: nat)
    ensures i <= |items|
    ensures i < |items| ==> items[i].id == id
    ensures forall k :: 0 <= k < i ==> items[k].id != id
  {
    if items == [] then 0 else if items[0].id == id then 0 else 1 + IndexOfId(items[1..], id)
  }

  function IndexOfPending(items: seq<Item>, p: Pending): (i: nat)
    ensures i <= |items|
    ensures i < |items| ==> items[i].pending == p
    ensures forall k :: 0 <= k < i ==> items[k].pending != p
  {
    if items == [] then 0 else if items[0].pending == p then 0 else 1 + IndexOfPending(items[1..], p)
  }

  predicate Matches(it: Item, id: nat, mtype: nat) {
    it.id == id && it.mtype % 256 == mtype
  }

  function IndexOfMatch(items: seq<Item>, id: nat, mtype: nat): (i: nat)
    ensures i <= |items|
    ensures i < |items| ==> items[i].id == id && items[i].mtype % 256 == mtype
    ensures forall k :: 0 <= k < i ==> items[k].id != id || items[k].mtype % 256 != mtype
  {
    if items == [] then 0 else if Matches(items[0], id, mtype) then 0 else 1 + IndexOfMatch(items[1..], id, mtype)
  }

  predicate Expired(it: Item, now: int, timeout: int) {
    now - it.tick > timeout
  }

  function IndexOfExpired(items: seq<Item>, now: int, timeout: int): (i: nat)
    ensures i <= |items|
    ensures i < |items| ==> now - items[i].tick > timeout
    ensures forall k :: 0 <= k < i ==> now - items[k].tick <= timeout
  {
    if items == [] then 0 else if Expired(items[0], now, timeout) then 0 else 1 + IndexOfExpired(items[1..], now, timeout)
  }

  lemma LastIndex(items: seq<Item>, it: Item)
    requires forall k :: 0 <= k < |items| ==> items[k].id != it.id
    ensures IndexOfId(items + [it], it.id) == |items|
  {
    assert (items + [it])[|items|] == it;
  }

  /** What is left after everything expired has gone, in the old order. */
  function KeepFresh(items: seq<Item>, now: int, timeout: int): (r: seq<Item>)
    ensures |r| <= |items|
  {
    if items == [] then []
    else
      var r, it := KeepFresh(items[..|items| - 1], now, timeout), items[|items| - 1];
      if Expired(it, now, timeout) then r else r + [it]
  }

  lemma {:induction false} SizeOfConcat(a: seq<Item>, b: seq<Item>)
    ensures SizeOf(a + b) == SizeOf(a) + SizeOf(b)
  {
    if b == [] {
      assert a + b == a;
    } else {
      SizeOfConcat(a, b[..|b| - 1]);
      assert (a + b)[..|a + b| - 1] == a + b[..|b| - 1];
    }
  }

  lemma SizeOfRemove(items: seq<Item>, i: nat)
    requires i < |items|
    ensures SizeOf(RemoveAt(items, i)) == SizeOf(items) - |items[i].data|
  {
    assert items == items[..i] + [items[i]] + items[i + 1..];
    SizeOfConcat(items[..i] + [items[i]], items[i + 1..]);
    SizeOfConcat(items[..i], [items[i]]);
    SizeOfConcat(items[..i], items[i + 1..]);
  }

  lemma CutAt<T>(s: seq<T>, i: nat)
    requires i < |s|
    ensures var r := s[..i] + s[i + 1..]; |r| == |s| - 1 && forall j :: 0 <= j < |r| ==> r[j] == s[if j < i then j else j + 1]
  {
  }

  lemma RemovedIs(items: seq<Item>, i: nat)
    requires i < |items|
    ensures RemoveAt(items, i) == items[..i] + items[i + 1..]
  {
  }

  /** Replacing an item by one of the same length leaves the size alone. */
  lemma SizeOfUpdate(items: seq<Item>, i: nat, it: Item)
    requires i < |items| && |it.data| == |items[i].data|
    ensures SizeOf(items[i := it]) == SizeOf(items)
  {
    var u := items[i := it];
    SizeOfRemove(items, i);
    SizeOfRemove(u, i);
    assert RemoveAt(u, i) == RemoveAt(items, i);
  }

  lemma {:induction false} KeepFreshConcat(a: seq<Item>, b: seq<Item>, now: int, timeout: int)
    ensures KeepFresh(a + b, now, timeout) == KeepFresh(a, now, timeout) + KeepFresh(b, now, timeout)
  {
    if b == [] {
      assert a + b == a;
    } else {
      KeepFreshConcat(a, b[..|b| - 1], now, timeout);
      assert (a + b)[..|a + b| - 1] == a + b[..|b| - 1];
    }
  }

  /** Deleting one expired item does not change what a full sweep leaves; with none expired it leaves all. */
  lemma {:induction false} SingleExpiredStep(items: seq<Item>, now: int, timeout: int)
    ensures var i := IndexOfExpired(items, now, timeout);
      if i < |items| then KeepFresh(RemoveAt(items, i), now, timeout) == KeepFresh(items, now, timeout)
      else KeepFresh(items, now, timeout) == items
  {
    var i := IndexOfExpired(items, now, timeout);
    if i < |items| {
      assert items == items[..i] + [items[i]] + items[i + 1..];
      KeepFreshConcat(items[..i] + [items[i]], items[i + 1..], now, timeout);
      KeepFreshConcat(items[..i], [items[i]], now, timeout);
      KeepFreshConcat(items[..i], items[i + 1..], now, timeout);
      assert KeepFresh([], now, timeout) == [];
      assert KeepFresh([items[i]], now, timeout) == [];
    } else {
      KeepAll(items, now, timeout);
    }
  }

  lemma {:induction false} KeepAll(items: seq<Item>, now: int, timeout: int)
    requires forall k :: 0 <= k < |items| ==> !Expired(items[k], now, timeout)
    ensures KeepFresh(items, now, timeout) == items
  {
    if items != [] { KeepAll(items[..|items| - 1], now, timeout); }
  }

  /** One step of the sweep over `before`, of which `m` items are done and `kept` are left. */
  lemma SweepStep(before: seq<Item>, m: nat, kept: seq<Item>, now: int, timeout: int)
    requires m < |before| && kept == KeepFresh(before[..m], now, timeout)
    ensures var items := kept + before[m..]; var more := KeepFresh(before[..m + 1], now, timeout);
      && items[|kept|] == before[m]
      && if Expired(before[m], now, timeout) then more == kept && RemoveAt(items, |kept|) == kept + before[m + 1..]
         else more == kept + [before[m]] && items == more + before[m + 1..]
  {
    assert before[..m + 1][..m] == before[..m];
  }

  /** The sweep keeps exactly the unexpired items. */
  lemma {:induction false} KeepFreshMembers(items: seq<Item>, now: int, timeout: int)
    ensures forall it :: it in KeepFresh(items, now, timeout) <==> it in items && now - it.tick <= timeout
  {
    if items != [] {
      KeepFreshMembers(items[..|items| - 1], now, timeout);
      assert items == items[..|items| - 1] + [items[|items| - 1]];
    }
  }
}

module Outbox {
  import opened Bytes
  import opened OutboxSpec
  import FixedHeader

  class Node {
    ghost const serial: nat
    var id: nat
    var mtype: nat
    var qos: nat
    var tick: int
    var pending: Pending
    var buffer: seq<byte>
    var next: Node?

    ghost function Value(): Item
      reads `id, `mtype, `qos, `tick, `pending, `buffer
    {
      Item(serial, id, mtype, qos, tick, pending, buffer)
    }

    constructor (id: nat, mtype: nat, qos: nat, tick: int, buffer: seq<byte>, ghost serial: nat)
      ensures Value() == Item(serial, id, mtype, qos, tick, Queued, buffer) && next == null
    {
      this.id, this.mtype, this.qos, this.tick, this.buffer := id, mtype, qos, tick, buffer;
      this.pending, this.next, this.serial := Queued, null, serial;
    }
  }

  ghost predicate Distinct(ns: seq<Node>) {
    forall i, j :: 0 <= i < j < |ns| ==> ns[i] != ns[j]
  }

  lemma DistinctWithout(ns: seq<Node>, i: nat)
    requires Distinct(ns) && 0 < i < |ns|
    ensures Distinct(ns[..i] + ns[i + 1..])
    ensures forall k :: 0 <= k < |ns| && k != i - 1 ==> ns[k] != ns[i - 1]
  {
    CutAt(ns, i);
  }

  class Outbox {
    var first: Node?
    /** The item whose next pointer an insertion overwrites; null stands for the head pointer itself. */
    var last: Node?
    var size: nat
    ghost var nodes: seq<Node>
    ghost var items: seq<Item>

    /** The links run through `nodes` in order and end at the tail. */
    ghost predicate Linked()
      reads `first, `last, `nodes, `items, nodes
    {
      && Distinct(nodes)
      && first == At(0)
      && last == (if nodes == [] then null else nodes[|nodes| - 1])
      && (forall i {:trigger nodes[i].next} :: 0 <= i < |nodes| ==> nodes[i].next == At(i + 1))
      && |items| == |nodes|
      && (forall i {:trigger nodes[i].Value()} {:trigger items[i]} :: 0 <= i < |nodes| ==> nodes[i].Value() == items[i])
    }

    ghost function At(i: nat): Node?
      reads `nodes
    {
      if i < |nodes| then nodes[i] else null
    }

    ghost predicate Valid()
      reads this, nodes
    {
      Linked() && size == SizeOf(items)
    }

    /** What the links say about one place in the list. */
    lemma LinkedAt(i: nat)
      requires Linked()
      ensures |items| == |nodes| && first == At(0)
      ensures i < |nodes| ==> nodes[i].Value() == items[i] && nodes[i].next == At(i + 1)
    {
    }

    constructor ()
      ensures Valid() && items == [] && nodes == []
    {
      first, last, size, nodes, items := null, null, 0, [], [];
    }

    method Enqueue(data: seq<byte>, remaining: seq<byte>, id: nat, mtype: nat, qos: nat, tick: int, ghost serial: nat)
      returns (n: Node)
      requires Valid()
      modifies this, nodes
      ensures Valid() && fresh(n) && nodes == old(nodes) + [n]
      ensures items == old(items) + [Item(serial, id, mtype, qos, tick, Queued, data + remaining)]
    {
      hide Linked;
      n := new Node(id, mtype, qos, tick, data + remaining, serial);
      ghost var added := [n.Value()];
      SizeOfConcat(items, added);
      assert SizeOf(added) == SizeOf(added[..0]) + |added[0].data|;
      InsertTail(n);
      size := size + |n.buffer|;
    }

    /** `STAILQ_INSERT_TAIL` */
    method InsertTail(n: Node)
      requires Linked() && n !in nodes
      modifies this`first, this`last, this`nodes, this`items, nodes, n`next
      ensures Linked() && nodes == old(nodes) + [n]
      ensures items == old(items) + [n.Value()] && n.Value() == old(n.Value())
    {
      n.next := null;
      if last == null {
        first := n;
      } else {
        last.next := n;
      }
      last := n;
      nodes := nodes + [n];
      items := items + [n.Value()];
    }

    method Get(id: nat) returns (n: Node?)
      requires Valid()
      ensures n == At(IndexOfId(items, id))
    {
      n := first;
      ghost var k := 0;
      while n != null
        modifies {}
        invariant k <= |nodes| && n == At(k)
        invariant forall j :: 0 <= j < k ==> items[j].id != id
        decreases |nodes| - k
      {
        assert n.Value() == items[k];
        if n.id == id {
          break;
        }
        n, k := n.next, k + 1;
      }
      assert k == IndexOfId(items, id);
    }

    /** Despite its name `outbox_dequeue` leaves the item in place. */
    method Dequeue(pending: Pending) returns (n: Node?, tick: int)
      requires Valid()
      ensures var i := IndexOfPending(items, pending);
        n == At(i) && (n != null ==> tick == items[i].tick)
    {
      n, tick := first, 0;
      ghost var k := 0;
      while n != null
        modifies {}
        invariant k <= |nodes| && n == At(k)
        invariant forall j :: 0 <= j < k ==> items[j].pending != pending
        decreases |nodes| - k
      {
        assert n.Value() == items[k];
        if n.pending == pending {
          tick := n.tick;
          break;
        }
        n, k := n.next, k + 1;
      }
      assert k == IndexOfPending(items, pending);
    }

    /** `STAILQ_REMOVE_HEAD` */
    method RemoveHead()
      requires Linked() && nodes != []
      modifies this`first, this`last, this`nodes, this`items
      ensures Linked() && items == RemoveAt(old(items), 0) && nodes == old(nodes)[..0] + old(nodes)[1..]
    {
      first := first.next;
      if first == null {
        last := null;
      }
      ghost var ns := nodes;
      nodes := nodes[..0] + nodes[1..];
      items := RemoveAt(items, 0);
      assert forall j :: 0 <= j < |nodes| ==> nodes[j] == ns[j + 1];
    }

    /** `STAILQ_REMOVE_AFTER` */
    method RemoveAfter(cur: Node, ghost i: nat)
      requires Linked() && 0 < i < |nodes| && nodes[i - 1] == cur
      modifies this`last, this`nodes, this`items, cur`next
      ensures Linked() && items == RemoveAt(old(items), i) && nodes == old(nodes)[..i] + old(nodes)[i + 1..]
    {
      hide Node.Value, RemoveAt, Distinct;
      ghost var ns, vs := nodes, items;
      DistinctWithout(ns, i);
      CutAt(ns, i);
      CutAt(vs, i);
      RemovedIs(vs, i);
      assert cur.next == nodes[i] && nodes[i].next == At(i + 1);
      cur.next := cur.next.next;
      if cur.next == null {
        last := cur;
      }
      nodes := nodes[..i] + nodes[i + 1..];
      items := RemoveAt(items, i);
      forall j | 0 <= j < |nodes|
        ensures nodes[j].next == At(j + 1) && nodes[j].Value() == items[j]
      {
        var k := if j < i then j else j + 1;
        assert nodes[j] == ns[k] && items[j] == vs[k];
      }
    }

    /** `STAILQ_REMOVE`: a head removal, or a walk to the predecessor and a removal after it. */
    method Unlink(n: Node, ghost i: nat)
      requires Linked() && i < |nodes| && nodes[i] == n
      modifies this`first, this`last, this`nodes, this`items, nodes
      ensures Linked() && items == RemoveAt(old(items), i)
      ensures nodes == old(nodes)[..i] + old(nodes)[i + 1..]
      ensures n.next == old(n.next) && n.buffer == old(n.buffer)
    {
      if first == n {
        RemoveHead();
      } else {
        var cur := Predecessor(n, i);
        RemoveAfter(cur, i);
      }
    }

    method Predecessor(n: Node, ghost i: nat) returns (cur: Node)
      requires Linked() && 0 < i < |nodes| && nodes[i] == n
      ensures cur == nodes[i - 1]
    {
      cur := first;
      ghost var k := 0;
      while cur.next != n
        invariant k < i && cur == nodes[k]
        decreases i - k
      {
        cur, k := cur.next, k + 1;
      }
      assert k + 1 == i;
    }

    /** Unlinking and the size update that follows it everywhere. */
    method Remove(n: Node, ghost i: nat)
      requires Valid() && i < |nodes| && nodes[i] == n
      modifies this, nodes
      ensures Valid() && items == RemoveAt(old(items), i)
      ensures nodes == old(nodes)[..i] + old(nodes)[i + 1..]
      ensures n.next == old(n.next)
    {
      hide Linked;
      LinkedAt(i);
      SizeOfRemove(items, i);
      Unlink(n, i);
      size := size - |n.buffer|;
    }

    method DeleteItem(target: Node) returns (ok: bool)
      requires Valid()
      modifies this, nodes
      ensures Valid() && ok == (target in old(nodes))
      ensures !ok ==> items == old(items) && nodes == old(nodes)
      ensures ok ==> exists i ::
        0 <= i < |old(nodes)| && old(nodes)[i] == target && items == RemoveAt(old(items), i) && nodes == old(nodes)[..i] + old(nodes)[i + 1..]
    {
      var n := first;
      ghost var k := 0;
      while n != null
        modifies {}
        invariant k <= |nodes| && n == At(k)
        invariant target !in nodes[..k]
        decreases |nodes| - k
      {
        if n == target {
          break;
        }
        n, k := n.next, k + 1;
      }
      if n == null {
        return false;
      }
      Remove(n, k);
      return true;
    }

    /** Removes the oldest item with this id and type. */
    method Delete(id: nat, mtype: nat) returns (ok: bool)
      requires Valid()
      modifies this, nodes
      ensures Valid()
      ensures var i := IndexOfMatch(old(items), id, mtype);
        if i < |old(items)| then
          ok && items == RemoveAt(old(items), i) && nodes == old(nodes)[..i] + old(nodes)[i + 1..]
        else !ok && items == old(items) && nodes == old(nodes)
    {
      var n := first;
      ghost var k := 0;
      while n != null
        modifies {}
        invariant k <= |nodes| && n == At(k)
        invariant forall j :: 0 <= j < k ==> !Matches(items[j], id, mtype)
        decreases |nodes| - k
      {
        var tmp := n.next;
        assert n.Value() == items[k];
        if n.id == id && n.mtype % 256 == mtype {
          break;
        }
        n, k := tmp, k + 1;
      }
      assert k == IndexOfMatch(items, id, mtype);
      if n == null {
        return false;
      }
      Remove(n, k);
      return true;
    }

    method SetPending(id: nat, pending: Pending) returns (ok: bool)
      requires Valid()
      modifies this, nodes
      ensures Valid() && nodes == old(nodes)
      ensures var i := IndexOfId(old(items), id);
        if i < |old(items)| then ok && items == old(items)[i := old(items)[i].(pending := pending)]
        else !ok && items == old(items)
    {
      var n := Get(id);
      if n == null {
        return false;
      }
      SetPendingAt(n, IndexOfId(items, id), pending);
      return true;
    }

    method SetPendingAt(n: Node, ghost i: nat, pending: Pending)
      requires Valid() && i < |nodes| && nodes[i] == n
      modifies this`items, n`pending
      ensures Valid() && items == old(items)[i := old(items)[i].(pending := pending)]
    {
      n.pending := pending;
      SizeOfUpdate(items, i, n.Value());
      items := items[i := n.Value()];
    }

    method SetTick(id: nat, tick: int) returns (ok: bool)
      requires Valid()
      modifies this, nodes
      ensures Valid() && nodes == old(nodes)
      ensures var i := IndexOfId(old(items), id);
        if i < |old(items)| then ok && items == old(items)[i := old(items)[i].(tick := tick)]
        else !ok && items == old(items)
    {
      var n := Get(id);
      if n == null {
        return false;
      }
      SetTickAt(n, IndexOfId(items, id), tick);
      return true;
    }

    method SetTickAt(n: Node, ghost i: nat, tick: int)
      requires Valid() && i < |nodes| && nodes[i] == n
      modifies this`items, n`tick
      ensures Valid() && items == old(items)[i := old(items)[i].(tick := tick)]
    {
      n.tick := tick;
      SizeOfUpdate(items, i, n.Value());
      items := items[i := n.Value()];
    }

    /** `mqtt_set_dup` on the stored copy. */
    method SetDup(n: Node, ghost i: nat)
      requires Valid() && i < |nodes| && nodes[i] == n && n.buffer != []
      modifies this`items, n`buffer
      ensures Valid()
      ensures var it := old(items)[i];
        items == old(items)[i := it.(data := it.data[0 := FixedHeader.WithDup(it.data[0])])]
    {
      n.buffer := n.buffer[0 := FixedHeader.WithDup(n.buffer[0])];
      SizeOfUpdate(items, i, n.Value());
      items := items[i := n.Value()];
    }

    /** Deletes the oldest expired item and answers its id, or -1. */
    method DeleteSingleExpired(now: int, timeout: int) returns (id: int)
      requires Valid()
      modifies this, nodes
      ensures Valid()
      ensures var i := IndexOfExpired(old(items), now, timeout);
        if i < |old(items)| then
          id == old(items)[i].id && items == RemoveAt(old(items), i) && nodes == old(nodes)[..i] + old(nodes)[i + 1..]
        else id == -1 && items == old(items) && nodes == old(nodes)
    {
      id := -1;
      var n := first;
      ghost var k := 0;
      while n != null
        modifies {}
        invariant k <= |nodes| && n == At(k)
        invariant forall j :: 0 <= j < k ==> !Expired(items[j], now, timeout)
        decreases |nodes| - k
      {
        assert n.Value() == items[k];
        if now - n.tick > timeout {
          break;
        }
        n, k := n.next, k + 1;
      }
      assert k == IndexOfExpired(items, now, timeout);
      if n != null {
        id := n.id;
        Remove(n, k);
      }
    }

    /** One sweep that removes as it walks. */
    method DeleteExpired(now: int, timeout: int) returns (deleted: nat)
      requires Valid()
      modifies this, nodes
      ensures Valid() && items == KeepFresh(old(items), now, timeout)
      ensures deleted == |old(items)| - |items|
      ensures Among(old(nodes))
    {
      hide Linked, Expired, KeepFresh;
      LinkedAt(0);
      KeepAll([], now, timeout);
      deleted := 0;
      var n := first;
      ghost var before, ns := items, nodes;
      ghost var m, kept := 0, [];
      assert before[..m] == [] && items == kept + before[m..];
      while n != null
        invariant Valid() && Among(ns) && m <= |before|
        invariant kept == KeepFresh(before[..m], now, timeout) && deleted == m - |kept|
        invariant items == kept + before[m..]
        invariant n == At(|kept|)
        decreases |before| - m
      {
        LinkedAt(0);
        var gone;
        n, gone := SweepNext(n, now, timeout, before, m, ns);
        if gone {
          deleted := deleted + 1;
        }
        m := m + 1;
        kept := KeepFresh(before[..m], now, timeout);
      }
      LinkedAt(0);
      assert |nodes| == |items| == |kept| + (|before| - m);
      assert before[..m] == before && items == kept;
    }

    ghost predicate Among(ns: seq<Node>)
      reads this
    {
      forall j :: 0 <= j < |nodes| ==> nodes[j] in ns
    }

    /** One turn of the sweep: the next pointer is saved before the item may be removed. */
    method SweepNext(n: Node, now: int, timeout: int, ghost before: seq<Item>, ghost m: nat, ghost ns: seq<Node>)
      returns (tmp: Node?, gone: bool)
      requires Valid() && m < |before| && Among(ns)
      requires var kept := KeepFresh(before[..m], now, timeout); items == kept + before[m..] && n == At(|kept|)
      modifies this, nodes
      ensures Valid() && Among(ns) && Among(old(nodes))
      ensures var more := KeepFresh(before[..m + 1], now, timeout);
        && items == more + before[m + 1..] && tmp == At(|more|)
        && |more| == |KeepFresh(before[..m], now, timeout)| + (if gone then 0 else 1)
      ensures gone == Expired(before[m], now, timeout)
    {
      ghost var kept := KeepFresh(before[..m], now, timeout);
      hide Linked, KeepFresh;
      SweepStep(before, m, kept, now, timeout);
      LinkedAt(|kept|);
      assert n.Value() == items[|kept|] == before[m];
      tmp := n.next;
      gone := now - n.tick > timeout;
      if gone {
        RemoveAmong(n, |kept|, ns);
      }
    }

    method RemoveAmong(n: Node, ghost i: nat, ghost ns: seq<Node>)
      requires Valid() && i < |nodes| && nodes[i] == n && Among(ns)
      modifies this, nodes
      ensures Valid() && items == RemoveAt(old(items), i) && |nodes| == |old(nodes)| - 1
      ensures Among(ns) && Among(old(nodes)) && At(i) == old(At(i + 1))
    {
      hide Linked;
      ghost var was := nodes;
      Remove(n, i);
      assert forall j :: 0 <= j < |nodes| ==> nodes[j] == was[if j < i then j else j + 1];
    }

    /** The reporting variant of the sweep, `mqtt_delete_expired_messages`: one item at a time until
        none is left. List and size end up as after one full sweep. */
    method DrainExpired(now: int, timeout: int) returns (ids: seq<int>)
      requires Valid()
      modifies this, nodes
      ensures Valid() && items == KeepFresh(old(items), now, timeout)
      ensures |ids| == |old(items)| - |items|
    {
      hide Linked;
      ids := [];
      while true
        invariant Valid() && Among(old(nodes))
        invariant KeepFresh(items, now, timeout) == KeepFresh(old(items), now, timeout)
        invariant |ids| == |old(items)| - |items|
        decreases |items|
      {
        LinkedAt(0);
        SingleExpiredStep(items, now, timeout);
        var id := DeleteSingleExpired(now, timeout);
        if id < 0 {
          break;
        }
        ids := ids + [id];
      }
    }

    method DeleteAll()
      requires Valid()
      modifies this, nodes
      ensures Valid() && items == [] && nodes == [] && size == 0
    {
      var n := first;
      while n != null
        invariant Valid() && n == first && nodes == old(nodes)[|old(nodes)| - |nodes|..] && |nodes| <= |old(nodes)|
        decreases |nodes|
      {
        var tmp := n.next;
        Remove(n, 0);
        n := tmp;
      }
    }
  }
}
