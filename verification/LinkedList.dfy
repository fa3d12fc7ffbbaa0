/** The NULL-terminated doubly linked list and the queue of src/queue.c, on heap nodes. A list
    is a head pointer; the ghost sequence passed along names its nodes in order. Freeing a node
    sets its ghost flag, so a list of unfreed nodes is one without dangling pointers. */
module LinkedList {
  import opened Base

  class Node<T> {
    var data: T
    var next: Node?<T>
    var prev: Node?<T>
    ghost var freed: bool

    constructor (d: T)
      ensures data == d && next == null && prev == null && !freed
    {
      data := d;
      next, prev, freed := null, null, false;
    }

    /** list_free_1: a node can be freed once. */
    method Free()
      requires !freed
      modifies this`freed
      ensures freed
    {
      freed := true;
    }
  }

  /** Consecutive nodes mirror each other and the last one ends the list. */
  ghost predicate Segment<T>(s: seq<Node<T>>)
    reads s
  {
    && Distinct(s)
    && (forall i :: 0 <= i < |s| ==> !s[i].freed)
    && (forall i {:trigger s[i].next} :: 0 <= i < |s| ==> s[i].next == if i + 1 < |s| then s[i + 1] else null)
    && (forall i {:trigger s[i].prev} :: 0 < i < |s| ==> s[i].prev == s[i - 1])
  }

  ghost predicate List<T>(head: Node?<T>, s: seq<Node<T>>)
    reads s
  {
    && Segment(s)
    && (s == [] ==> head == null)
    && (s != [] ==> head == s[0] && head.prev == null)
  }

  /** The frame of a pointer that may be NULL. */
  ghost function Only<T>(n: Node?<T>): set<object> {
    if n == null then {} else {n}
  }

  ghost function Data<T>(s: seq<Node<T>>): (d: seq<T>)
    reads s
    ensures |d| == |s|
  {
    seq(|s|, i requires 0 <= i < |s| reads s => s[i].data)
  }

  /** The sequence without its first occurrence of x, if any. */
  function RemoveFirst<T(==)>(s: seq<T>, x: T): seq<T> {
    if s == [] then [] else if s[0] == x then s[1..] else [s[0]] + RemoveFirst(s[1..], x)
  }

  function RemoveEvery<T(==)>(s: seq<T>, x: T): seq<T> {
    if s == [] then [] else if s[0] == x then RemoveEvery(s[1..], x) else [s[0]] + RemoveEvery(s[1..], x)
  }

  lemma {:induction false} RemoveFirstAt<T>(s: seq<T>, x: T, k: nat)
    requires k < |s| && s[k] == x && x !in s[..k]
    ensures RemoveFirst(s, x) == Without(s, k)
  {
    if k > 0 {
      assert s[0] == s[..k][0];
      assert s[1..][..k - 1] == s[..k][1..];
      RemoveFirstAt(s[1..], x, k - 1);
    }
  }

  lemma {:induction false} RemoveFirstAbsent<T>(s: seq<T>, x: T)
    requires x !in s
    ensures RemoveFirst(s, x) == s
  {
    if s != [] {
      RemoveFirstAbsent(s[1..], x);
    }
  }

  /** RemoveEvery is what is left when no occurrence remains, in whatever order they go. */
  lemma {:induction false} RemoveEveryWithout<T>(s: seq<T>, x: T, k: nat)
    requires k < |s| && s[k] == x
    ensures RemoveEvery(Without(s, k), x) == RemoveEvery(s, x)
  {
    if k == 0 {
      assert Without(s, 0) == s[1..];
    } else {
      assert Without(s, k)[1..] == Without(s[1..], k - 1);
      RemoveEveryWithout(s[1..], x, k - 1);
    }
  }

  lemma {:induction false} RemoveEveryAbsent<T>(s: seq<T>, x: T)
    requires x !in s
    ensures RemoveEvery(s, x) == s
  {
    if s != [] {
      RemoveEveryAbsent(s[1..], x);
    }
  }

  lemma WithoutMembers<T>(s: seq<T>, k: nat)
    requires k < |s|
    ensures forall x :: x in s <==> x in Without(s, k) || x == s[k]
  {
    assert s == s[..k] + [s[k]] + s[k + 1..];
  }

  // ----- Lists -----

  method InsertHead<T>(list: Node?<T>, data: T, ghost s: seq<Node<T>>) returns (r: Node<T>)
    requires List(list, s)
    modifies Only(list)
    ensures fresh(r) && List(r, [r] + s) && Data([r] + s) == [data] + old(Data(s))
  {
    r := new Node(data);
    r.next := list;
    if list != null {
      list.prev := r;
    }
  }

  /** list_last, from any node of the list, or NULL from NULL. */
  method Last<T>(list: Node?<T>, ghost s: seq<Node<T>>, ghost k: nat) returns (last: Node?<T>)
    requires list != null ==> Segment(s) && k < |s| && list == s[k]
    ensures last == if list == null then null else s[|s| - 1]
  {
    last := list;
    if list != null {
      ghost var i := k;
      while last.next != null
        invariant k <= i < |s| && last == s[i]
        decreases |s| - i
      {
        last := last.next;
        i := i + 1;
      }
    }
  }

  /** list_insert_tail, given any node of the list (or NULL for the empty list). */
  method InsertTail<T>(list: Node?<T>, data: T, ghost s: seq<Node<T>>, ghost k: nat)
    returns (r: Node<T>, ghost n: Node<T>)
    requires if list == null then s == [] else k < |s| && list == s[k] && List(s[0], s)
    modifies if s == [] then {} else {s[|s| - 1]}
    ensures fresh(n) && r == (if list == null then n else list)
    ensures List((s + [n])[0], s + [n]) && Data(s + [n]) == old(Data(s)) + [data]
  {
    var node := new Node(data);
    n := node;
    if list != null {
      var last := Last(list, s, k);
      node.prev := last;
      last.next := node;
      r := list;
    } else {
      r := node;
    }
  }

  method Find<T(==)>(list: Node?<T>, data: T, ghost s: seq<Node<T>>) returns (r: Node?<T>, ghost k: nat)
    requires List(list, s)
    ensures (r == null <==> data !in Data(s)) && (r != null ==> r.data == data)
    ensures k <= |s| && data !in Data(s)[..k]
    ensures if r == null then k == |s| else k < |s| && r == s[k]
  {
    r, k := list, 0;
    while r != null
      invariant k <= |s| && r == (if k < |s| then s[k] else null)
      invariant data !in Data(s)[..k]
      decreases |s| - k
    {
      if r.data == data {
        break;
      }
      r := r.next;
      k := k + 1;
    }
    assert r != null ==> Data(s)[k] == data;
  }

  /** list_find_custom, with the comparison as a predicate. */
  method FindBy<T>(list: Node?<T>, wanted: T -> bool, ghost s: seq<Node<T>>) returns (r: Node?<T>, ghost k: nat)
    requires List(list, s)
    ensures (r == null <==> forall d :: d in Data(s) ==> !wanted(d)) && (r != null ==> wanted(r.data))
    ensures k <= |s| && forall i :: 0 <= i < k ==> !wanted(Data(s)[i])
    ensures if r == null then k == |s| else k < |s| && r == s[k]
  {
    r, k := list, 0;
    while r != null
      invariant k <= |s| && r == (if k < |s| then s[k] else null)
      invariant forall i :: 0 <= i < k ==> !wanted(Data(s)[i])
      decreases |s| - k
    {
      if wanted(r.data) {
        break;
      }
      r := r.next;
      k := k + 1;
    }
    assert r != null ==> r.data in Data(s) by {
      assert r != null ==> Data(s)[k] == r.data;
    }
  }

  /** What unlinking a node writes to: the node and its neighbours. */
  ghost function Around<T>(n: Node?<T>): set<object>
    reads Only(n)
  {
    if n == null then {} else {n} + Only(n.next) + Only(n.prev)
  }

  /** The pointer writes of list_remove_link. */
  method Bridge<T>(list: Node?<T>, link: Node<T>, ghost s: seq<Node<T>>, ghost k: nat) returns (r: Node?<T>)
    requires List(list, s) && k < |s| && link == s[k]
    modifies Around(link)
    ensures Bridged(s, k) && r == (if link == list then old(link.next) else list)
    ensures link.next == null && link.prev == null && Data(s) == old(Data(s))
  {
    r := list;
    if link.next != null {
      link.next.prev := link.prev;
    }
    if link.prev != null {
      link.prev.next := link.next;
    }
    if link == r {
      r := r.next;
    }
    link.next, link.prev := null, null;
  }

  /** list_remove_link: the node leaves the list and is a list of its own. NULL changes nothing. */
  method RemoveLink<T>(list: Node?<T>, link: Node?<T>, ghost s: seq<Node<T>>, ghost k: nat)
    returns (r: Node?<T>)
    requires List(list, s) && (link != null ==> k < |s| && link == s[k])
    modifies Around(link)
    ensures link == null ==> r == list && List(r, s)
    ensures link != null ==> List(r, Without(s, k)) && Data(Without(s, k)) == Without(old(Data(s)), k)
    ensures link != null ==> link.next == null && link.prev == null && !link.freed && link.data == old(link.data)
  {
    r := list;
    if link != null {
      r := Bridge(list, link, s, k);
      BridgedIsList(s, k);
      assert Data(Without(s, k)) == Without(Data(s), k);
      assert link.data == Data(s)[k] == old(Data(s))[k];
    }
  }

  /** The neighbours of position k point at each other, everything else as in a list. */
  ghost predicate Bridged<T>(s: seq<Node<T>>, k: nat)
    requires k < |s|
    reads s
  {
    && Distinct(s)
    && (forall i :: 0 <= i < |s| ==> !s[i].freed)
    && (forall i {:trigger s[i].next} :: 0 <= i < |s| && i != k ==>
          var j := if i + 1 == k then k + 1 else i + 1; s[i].next == if j < |s| then s[j] else null)
    && (forall i {:trigger s[i].prev} :: 0 <= i < |s| && i != k ==>
          var j := if i == k + 1 then k - 1 else i - 1; s[i].prev == if j >= 0 then s[j] else null)
  }

  lemma BridgedIsList<T>(s: seq<Node<T>>, k: nat)
    requires k < |s| && Bridged(s, k)
    ensures var t := Without(s, k); List(if t == [] then null else t[0], t)
  {
    var t := Without(s, k);
    assert forall j :: 0 <= j < |t| ==> t[j] == s[if j < k then j else j + 1];
  }

  /** list_free: every node reachable from list is freed. */
  method FreeList<T>(list: Node?<T>, ghost s: seq<Node<T>>)
    requires Segment(s) && list == if s == [] then null else s[0]
    modifies s
    ensures forall n :: n in s ==> n.freed
  {
    var cur := list;
    ghost var i := 0;
    while cur != null
      invariant 0 <= i <= |s| && cur == (if i < |s| then s[i] else null)
      invariant forall j :: 0 <= j < |s| ==> s[j].freed == (j < i) && s[j].next == old(s[j].next)
      decreases |s| - i
    {
      var next := cur.next;
      cur.Free();
      cur := next;
      i := i + 1;
    }
  }

  /** list_find, list_remove_link and then list_free of the detached link: exactly the first node
      that holds data is taken out and freed. */
  method FindRemoveFree<T(==)>(list: Node?<T>, data: T, ghost s: seq<Node<T>>)
    returns (head: Node?<T>, found: bool, ghost k: nat, ghost t: seq<Node<T>>)
    requires List(list, s)
    modifies s
    ensures List(head, t) && Data(t) == RemoveFirst(old(Data(s)), data) && found == (data in old(Data(s)))
    ensures if found then k < |s| && t == Without(s, k) && s[k].freed else t == s
    ensures forall i :: 0 <= i < |t| ==> t[i] in s
  {
    head, t := list, s;
    ghost var d := Data(s);
    var link;
    link, k := Find(list, data, s);
    found := link != null;
    if found {
      RemoveFirstAt(d, data, k);
      head := RemoveLink(list, link, s, k);
      t := Without(s, k);
      assert link !in t;
      ghost var left := Data(t);
      FreeList(link, [link]);
      assert Data(t) == left;
    } else {
      RemoveFirstAbsent(d, data);
    }
  }

  /** list_delete_link */
  method DeleteLink<T>(list: Node?<T>, link: Node?<T>, ghost s: seq<Node<T>>, ghost k: nat)
    returns (r: Node?<T>)
    requires List(list, s) && (link != null ==> k < |s| && link == s[k])
    modifies Around(link)
    ensures link == null ==> r == list && List(r, s)
    ensures link != null ==> List(r, Without(s, k)) && Data(Without(s, k)) == Without(old(Data(s)), k)
    ensures link != null ==> link.freed
  {
    r := RemoveLink(list, link, s, k);
    if link != null {
      ghost var d := Data(Without(s, k));
      assert link !in Without(s, k);
      link.Free();
      assert Data(Without(s, k)) == d;
    }
  }

  /** list_remove: the first node holding data leaves the list and is freed, and no other. */
  method Remove<T(==)>(list: Node?<T>, data: T, ghost s: seq<Node<T>>)
    returns (head: Node?<T>, ghost t: seq<Node<T>>)
    requires List(list, s)
    modifies s
    ensures List(head, t) && Data(t) == RemoveFirst(old(Data(s)), data)
    ensures forall n :: n in s ==> n in t || n.freed
    ensures |t| == |s| - if data in old(Data(s)) then 1 else 0
  {
    head, t := list, s;
    var cur := list;
    ghost var k := 0;
    ghost var d := Data(s);
    while cur != null
      invariant k <= |s| && cur == if k < |s| then s[k] else null
      invariant data !in d[..k] && List(list, s) && Data(s) == d && head == list && t == s
      decreases |s| - k
    {
      if cur.data != data {
        cur := cur.next;
        k := k + 1;
      } else {
        RemoveFirstAt(d, data, k);
        head := DeleteLink(list, cur, s, k);
        t := Without(s, k);
        return;
      }
    }
    RemoveFirstAbsent(d, data);
  }

  /** One deletion of list_remove_all: next is what followed the deleted node. */
  method RemoveMatch<T(==)>(list: Node<T>, cur: Node<T>, ghost s: seq<Node<T>>, ghost k: nat)
    returns (head: Node?<T>, next: Node?<T>)
    requires List(list, s) && k < |s| && cur == s[k]
    modifies s
    ensures var t := Without(s, k);
            && List(head, t) && Data(t) == Without(old(Data(s)), k) && cur.freed
            && next == if k < |t| then t[k] else null
    ensures forall n :: n in s ==> n.freed == (n == cur)
  {
    next := cur.next;
    head := DeleteLink(list, cur, s, k);
    WithoutMembers(s, k);
  }

  /** list_remove_all */
  method RemoveAll<T(==)>(list: Node?<T>, data: T, ghost s: seq<Node<T>>)
    returns (head: Node?<T>, ghost t: seq<Node<T>>)
    requires List(list, s)
    modifies s
    ensures List(head, t) && Data(t) == RemoveEvery(old(Data(s)), data)
    ensures forall n :: n in s ==> n in t || n.freed
  {
    head, t := list, s;
    var cur := list;
    ghost var k := 0;        // nodes kept so far
    ghost var d := Data(s);
    while cur != null
      invariant k <= |t| && cur == if k < |t| then t[k] else null
      invariant List(head, t) && RemoveEvery(Data(t), data) == RemoveEvery(d, data)
      invariant data !in Data(t)[..k]
      invariant forall n :: n in t ==> n in s
      invariant forall n :: n in s ==> n in t || n.freed
      decreases |t| - k
    {
      ghost var before := Data(t);
      if cur.data != data {
        cur := cur.next;
        k := k + 1;
      } else {
        RemoveEveryWithout(before, data, k);
        WithoutMembers(t, k);
        head, cur := RemoveMatch(head, cur, t, k);
        t := Without(t, k);
        assert Data(t)[..k] == before[..k];
      }
    }
    RemoveEveryAbsent(Data(t), data);
  }

  method Concat<T>(list1: Node?<T>, list2: Node?<T>, ghost s1: seq<Node<T>>, ghost s2: seq<Node<T>>)
    returns (r: Node?<T>)
    requires List(list1, s1) && List(list2, s2)
    requires forall n :: n in s1 ==> n !in s2
    modifies s1, s2
    ensures List(r, s1 + s2) && Data(s1 + s2) == old(Data(s1) + Data(s2))
  {
    r := list1;
    ghost var s := s1 + s2;
    assert s2 == [] ==> s == s1;
    forall i, j | 0 <= i < |s1| && 0 <= j < |s2| ensures s1[i] != s2[j] {
      assert s1[i] in s1 && s2[j] in s2;
    }
    if list2 != null {
      var last := Last(list1, s1, 0);
      if last != null {
        last.next := list2;
      } else {
        r := list2;
      }
      list2.prev := last;
    }
    assert forall i :: 0 <= i < |s| ==> s[i] == if i < |s1| then s1[i] else s2[i - |s1|];
  }

  // ----- Queue -----

  class Queue<T> {
    var head: Node?<T>
    var tail: Node?<T>
    var count: nat
    ghost var nodes: seq<Node<T>>

    ghost predicate Valid()
      reads this, nodes
    {
      && List(head, nodes)
      && tail == (if nodes == [] then null else nodes[|nodes| - 1])
      && count == |nodes|
    }

    ghost function Contents(): seq<T>
      reads this, nodes
    {
      Data(nodes)
    }

    constructor ()
      ensures Valid() && Contents() == [] && nodes == []
    {
      head, tail, count, nodes := null, null, 0, [];
    }

    method PushTail(data: T)
      requires Valid()
      modifies this, nodes
      ensures Valid() && Contents() == old(Contents()) + [data]
      ensures exists n :: fresh(n) && nodes == old(nodes) + [n]
    {
      ghost var n;
      ghost var k := if |nodes| == 0 then 0 else |nodes| - 1;
      tail, n := InsertTail(tail, data, nodes, k);
      nodes := nodes + [n];
      assert nodes[k].next == if k + 1 < |nodes| then nodes[k + 1] else null;
      if tail.next != null {
        tail := tail.next;
      } else {
        head := tail;
      }
      count := count + 1;
    }

    method PushHead(data: T)
      requires Valid()
      modifies this, nodes
      ensures Valid() && Contents() == [data] + old(Contents())
      ensures exists n :: fresh(n) && nodes == [n] + old(nodes)
    {
      if head != null {
        head := InsertHead(head, data, nodes);
      } else {
        head := InsertHead(head, data, nodes);
        tail := head;
      }
      nodes := [head] + nodes;
      count := count + 1;
    }

    /** NULL (None) comes back exactly from an empty queue. */
    method PopHead() returns (r: Option<T>)
      requires Valid()
      modifies this, nodes
      ensures Valid()
      ensures if old(Contents()) == [] then r == None && Contents() == []
              else r.Some? && old(Contents()) == [r.value] + Contents()
      ensures old(nodes) != [] ==> nodes == old(nodes)[1..] && old(nodes)[0].freed
    {
      if head == null {
        return None;
      }
      var node := head;
      r := Some(node.data);
      head := node.next;
      if head != null {
        head.prev := null;
      } else {
        tail := null;
      }
      count := count - 1;
      node.Free();
      nodes := nodes[1..];
      assert Data(nodes) == old(Data(nodes))[1..];
    }

    /** queue_pop_tail always clears both ends. It returns the last element, but leaves a valid
        queue exactly when that was the only one; otherwise the count and the ends disagree and
        every remaining element is unreachable. */
    method PopTail() returns (r: Option<T>)
      requires Valid()
      modifies this, nodes
      ensures if old(Contents()) == [] then r == None && Valid() && Contents() == []
              else
                && r == Some(old(Contents())[|old(Contents())| - 1])
                && head == tail == null && count == |old(nodes)| - 1
      ensures (exists rest :: List(head, rest) && |rest| == count) <==> |old(nodes)| <= 1
    {
      if tail == null {
        assert List(head, []);
        return None;
      }
      var node := tail;
      r := Some(node.data);
      head, tail := null, null;
      count := count - 1;
      node.Free();
      ghost var empty: seq<Node<T>> := [];
      nodes := empty;
      assert List(head, empty);
    }
  }
}
