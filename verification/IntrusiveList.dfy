/** The circular intrusive list of include/list.h, on heap nodes. A ring is named by the ghost
    sequence of its nodes, the head first. The entry of a node stands for the structure in which
    the C code embeds it (list_entry). */
module IntrusiveList {
  import opened Base

  class ListHead<T> {
    var next: ListHead?<T>
    var prev: ListHead?<T>
    var entry: T

    /** INIT_LIST_HEAD */
    constructor (e: T)
      ensures Ring([this]) && entry == e
    {
      entry := e;
      next, prev := this, this;
    }
  }

  /** next and prev go around the ring and are inverse to each other. */
  ghost predicate Ring<T>(c: seq<ListHead<T>>)
    reads c
  {
    && |c| >= 1 && Distinct(c)
    && (forall i {:trigger c[i].next} :: 0 <= i < |c| ==> c[i].next == if i + 1 < |c| then c[i + 1] else c[0])
    && (forall i {:trigger c[i].prev} :: 0 <= i < |c| ==> c[i].prev == if i > 0 then c[i - 1] else c[|c| - 1])
  }

  ghost function Entries<T>(s: seq<ListHead<T>>): (d: seq<T>)
    reads s
    ensures |d| == |s|
  {
    seq(|s|, i requires 0 <= i < |s| reads s => s[i].entry)
  }

  /** The node that follows position k around the ring. */
  function After<T>(c: seq<ListHead<T>>, k: nat): ListHead<T>
    requires k < |c|
  {
    if k + 1 < |c| then c[k + 1] else c[0]
  }

  function Before<T>(c: seq<ListHead<T>>, k: nat): ListHead<T>
    requires k < |c|
  {
    if k > 0 then c[k - 1] else c[|c| - 1]
  }

  /** __list_add: the node goes in between two consecutive nodes. */
  method AddBetween<T>(node: ListHead<T>, prev: ListHead<T>, next: ListHead<T>, ghost c: seq<ListHead<T>>, ghost k: nat)
    requires Ring(c) && node !in c && k < |c|
    requires prev == c[k] && next == After(c, k)
    modifies node`next, node`prev, prev`next, next`prev
    ensures Ring(Insert(c, k + 1, node))
  {
    next.prev := node;
    node.next := next;
    node.prev := prev;
    prev.next := node;
    ghost var t := Insert(c, k + 1, node);
    assert forall i :: 0 <= i < |t| ==> t[i] == if i <= k then c[i] else if i == k + 1 then node else c[i - 1];
  }

  /** list_add: right after the head. */
  method Add<T>(node: ListHead<T>, head: ListHead<T>, ghost c: seq<ListHead<T>>)
    requires Ring(c) && head == c[0] && node !in c
    modifies node`next, node`prev, head`next, After(c, 0)`prev
    ensures Ring([head, node] + c[1..])
  {
    AddBetween(node, head, head.next, c, 0);
    assert Insert(c, 1, node) == [head, node] + c[1..];
  }

  /** list_add_tail: right before the head, that is, at the end. */
  method AddTail<T>(node: ListHead<T>, head: ListHead<T>, ghost c: seq<ListHead<T>>)
    requires Ring(c) && head == c[0] && node !in c
    modifies node`next, node`prev, head`prev, Before(c, 0)`next
    ensures Ring(c + [node])
  {
    AddBetween(node, head.prev, head, c, |c| - 1);
    assert Insert(c, |c|, node) == c + [node];
  }

  /** __list_del: the neighbours of a node point at each other, the node keeps its links. */
  method Unlink<T>(prev: ListHead<T>, next: ListHead<T>, ghost c: seq<ListHead<T>>, ghost k: nat)
    requires Ring(c) && 0 < k < |c| && prev == c[k].prev && next == c[k].next
    modifies prev`next, next`prev
    ensures Ring(Without(c, k))
  {
    next.prev := prev;
    prev.next := next;
    ghost var t := Without(c, k);
    assert forall i :: 0 <= i < |t| ==> t[i] == if i < k then c[i] else c[i + 1];
  }

  /** list_del: the node leaves the ring with NULL links. */
  method Del<T>(node: ListHead<T>, ghost c: seq<ListHead<T>>, ghost k: nat)
    requires Ring(c) && 0 < k < |c| && node == c[k]
    modifies node`next, node`prev, Before(c, k)`next, After(c, k)`prev
    ensures Ring(Without(c, k)) && node.next == null && node.prev == null
  {
    assert node !in Without(c, k);
    Unlink(node.prev, node.next, c, k);
    node.next := null;
    node.prev := null;
  }

  /** list_del_init: the node leaves the ring and becomes a ring of its own. */
  method DelInit<T>(node: ListHead<T>, ghost c: seq<ListHead<T>>, ghost k: nat)
    requires Ring(c) && 0 < k < |c| && node == c[k]
    modifies node`next, node`prev, Before(c, k)`next, After(c, k)`prev
    ensures Ring(Without(c, k)) && Ring([node])
  {
    assert node !in Without(c, k);
    Unlink(node.prev, node.next, c, k);
    node.next := node;
    node.prev := node;
  }

  /** list_empty */
  method Empty<T>(head: ListHead<T>, ghost c: seq<ListHead<T>>) returns (b: bool)
    requires Ring(c) && head == c[0]
    ensures b <==> c == [head]
  {
    b := head.next == head;
  }

  ghost predicate Disjoint<T>(a: seq<T>, b: seq<T>) {
    forall i, j :: 0 <= i < |a| && 0 <= j < |b| ==> a[i] != b[j]
  }

  /** list_move: from wherever the node is to right after head, in the same ring or another one. */
  method Move<T>(node: ListHead<T>, head: ListHead<T>, ghost c: seq<ListHead<T>>, ghost k: nat,
                 ghost d: seq<ListHead<T>>)
    requires Ring(c) && 0 < k < |c| && node == c[k] && Ring(d) && head == d[0]
    requires d == c || Disjoint(c, d)
    modifies c, d
    ensures Ring([head, node] + (if d == c then Without(c, k) else d)[1..])
    ensures d != c ==> Ring(Without(c, k))
    ensures forall n :: n in c || n in d ==> n.entry == old(n.entry)
  {
    ghost var w := Without(c, k);
    assert node !in w && forall i :: 0 <= i < |w| ==> w[i] == c[if i < k then i else i + 1];
    Unlink(node.prev, node.next, c, k);
    assert d != c ==> Ring(d);
    Add(node, head, if d == c then w else d);
  }

  /** list_move_tail */
  method MoveTail<T>(node: ListHead<T>, head: ListHead<T>, ghost c: seq<ListHead<T>>, ghost k: nat,
                     ghost d: seq<ListHead<T>>)
    requires Ring(c) && 0 < k < |c| && node == c[k] && Ring(d) && head == d[0]
    requires d == c || Disjoint(c, d)
    modifies c, d
    ensures Ring((if d == c then Without(c, k) else d) + [node])
    ensures d != c ==> Ring(Without(c, k))
    ensures forall n :: n in c || n in d ==> n.entry == old(n.entry)
  {
    ghost var w := Without(c, k);
    assert node !in w && forall i :: 0 <= i < |w| ==> w[i] == c[if i < k then i else i + 1];
    Unlink(node.prev, node.next, c, k);
    assert d != c ==> Ring(d);
    AddTail(node, head, if d == c then w else d);
  }

  /** The nodes of one ring right after the head of another. */
  function Joined<T>(c: seq<T>, d: seq<T>): (t: seq<T>)
    requires |c| >= 1 && |d| >= 1
    ensures |t| == |c| + |d| - 1
    ensures forall i :: 0 <= i < |t| ==> t[i] == if i == 0 then d[0] else if i < |c| then c[i] else d[i - |c| + 1]
  {
    [d[0]] + c[1..] + d[1..]
  }

  /** The nodes of c without its head go around between d[0] and what followed it. */
  ghost predicate Spliced<T>(c: seq<ListHead<T>>, d: seq<ListHead<T>>)
    requires |c| >= 2 && |d| >= 1
    reads c, d
  {
    var last, at := c[|c| - 1], After(d, 0);
    && Distinct(c) && Distinct(d) && Disjoint(c, d)
    && (forall i {:trigger c[i].next} :: 0 < i < |c| ==> c[i].next == if i + 1 < |c| then c[i + 1] else at)
    && (forall i {:trigger c[i].prev} :: 0 < i < |c| ==> c[i].prev == if i > 1 then c[i - 1] else d[0])
    && (forall i {:trigger d[i].next} :: 0 <= i < |d| ==> d[i].next == if i == 0 then c[1] else After(d, i))
    && (forall i {:trigger d[i].prev} :: 0 <= i < |d| ==> d[i].prev == if d[i] == at then last else Before(d, i))
  }

  lemma SplicedIsRing<T>(c: seq<ListHead<T>>, d: seq<ListHead<T>>)
    requires |c| >= 2 && |d| >= 1 && Spliced(c, d)
    ensures Ring(Joined(c, d))
  {
  }

  /** __list_splice */
  method SpliceNodes<T>(list: ListHead<T>, head: ListHead<T>, ghost c: seq<ListHead<T>>, ghost d: seq<ListHead<T>>)
    requires Ring(c) && |c| >= 2 && list == c[0] && Ring(d) && head == d[0] && Disjoint(c, d)
    modifies list.next`prev, list.prev`next, head`next, head.next`prev
    ensures Spliced(c, d)
  {
    var first := list.next;
    var last := list.prev;
    var at := head.next;
    assert first == c[1] && last == c[|c| - 1] && at == After(d, 0);
    first.prev := head;
    head.next := first;
    last.next := at;
    at.prev := last;
  }

  /** list_splice: the nodes of one ring go right after the head of another. The emptied head keeps
      links into the joined ring. */
  method Splice<T>(list: ListHead<T>, head: ListHead<T>, ghost c: seq<ListHead<T>>, ghost d: seq<ListHead<T>>)
    requires Ring(c) && list == c[0] && Ring(d) && head == d[0] && Disjoint(c, d)
    modifies list.next`prev, list.prev`next, head`next, head.next`prev
    ensures Ring(Joined(c, d))
  {
    var empty := Empty(list, c);
    if !empty {
      SpliceNodes(list, head, c, d);
      SplicedIsRing(c, d);
    } else {
      assert Joined(c, d) == d;
    }
  }

  /** list_splice_init */
  method SpliceInit<T>(list: ListHead<T>, head: ListHead<T>, ghost c: seq<ListHead<T>>, ghost d: seq<ListHead<T>>)
    requires Ring(c) && list == c[0] && Ring(d) && head == d[0] && Disjoint(c, d)
    modifies list`next, list`prev, list.next`prev, list.prev`next, head`next, head.next`prev
    ensures Ring(Joined(c, d)) && Ring([list])
  {
    var empty := Empty(list, c);
    if !empty {
      SpliceNodes(list, head, c, d);
      list.next := list;
      list.prev := list;
      SplicedIsRing(c, d);
    } else {
      assert Joined(c, d) == d;
    }
  }

  lemma FirstOut<T>(c: seq<ListHead<T>>)
    requires |c| >= 2
    ensures Without(c, 1) == [c[0]] + c[2..]
  {
  }

  /** list_del of the first node. */
  method DeleteFirst<T>(node: ListHead<T>, head: ListHead<T>, ghost c: seq<ListHead<T>>)
    requires Ring(c) && |c| >= 2 && head == c[0] && node == c[1]
    modifies node`next, node`prev, head`next, After(c, 1)`prev
    ensures Ring([head] + c[2..]) && node.next == null && node.prev == null
    ensures head.next == if |c| > 2 then c[2] else head
  {
    FirstOut(c);
    Del(node, c, 1);
    assert Without(c, 1)[0] == head;
  }

  /** The nodes before position k have been deleted, the others are still a ring. */
  ghost predicate Deleted<T>(c: seq<ListHead<T>>, k: nat)
    requires 1 <= k <= |c|
    reads c
  {
    && Distinct(c)
    && c[0].next == (if k < |c| then c[k] else c[0])
    && c[0].prev == (if k < |c| then c[|c| - 1] else c[0])
    && (forall i {:trigger c[i].next} :: 0 < i < |c| ==> c[i].next == if i < k then null else After(c, i))
    && (forall i {:trigger c[i].prev} :: 0 < i < |c| ==>
          c[i].prev == if i < k then null else if i > k then c[i - 1] else c[0])
  }

  lemma RestIsRing<T>(c: seq<ListHead<T>>, k: nat)
    requires 1 <= k <= |c| && Distinct(c)
    ensures Deleted(c, k) <==> Ring([c[0]] + c[k..]) && forall i :: 0 < i < k ==> c[i].next == null && c[i].prev == null
  {
    var rest := [c[0]] + c[k..];
    assert forall i :: 0 < i < |rest| ==> rest[i] == c[i + k - 1];
    if Ring(rest) && forall i :: 0 < i < k ==> c[i].next == null && c[i].prev == null {
      assert rest[0].next == After(rest, 0) && rest[0].prev == Before(rest, 0);
      forall i | k <= i < |c| ensures c[i].next == After(c, i) && c[i].prev == if i > k then c[i - 1] else c[0] {
        var j := i - k + 1;
        assert c[i] == rest[j] && rest[j].next == After(rest, j) && rest[j].prev == Before(rest, j);
      }
      assert Deleted(c, k);
    }
  }

  /** list_for_each_safe with a body that deletes the current node: every element is visited once,
      in order, and the ring ends empty. */
  method DeleteEach<T>(head: ListHead<T>, ghost c: seq<ListHead<T>>) returns (visited: seq<T>)
    requires Ring(c) && head == c[0]
    modifies c
    ensures Ring([head]) && visited == old(Entries(c[1..]))
    ensures forall i :: 0 < i < |c| ==> c[i].next == null && c[i].prev == null
  {
    visited := [];
    ghost var k := 1;        // position of the node to delete next
    var pos := head.next;
    var n := pos.next;
    while pos != head
      invariant 1 <= k <= |c| && Deleted(c, k)
      invariant pos == (if k < |c| then c[k] else head) && n == pos.next
      invariant Entries(c) == old(Entries(c)) && visited == Entries(c)[1..k]
      decreases |c| - k
    {
      visited := visited + [pos.entry];
      DeleteNext(pos, head, c, k);
      k := k + 1;
      pos := n;
      n := pos.next;
    }
    assert old(Entries(c[1..])) == old(Entries(c))[1..];
  }

  /** One round of a safe iteration whose body deletes the current node. */
  method DeleteNext<T>(pos: ListHead<T>, head: ListHead<T>, ghost c: seq<ListHead<T>>, ghost k: nat)
    requires 1 <= k < |c| && Deleted(c, k) && head == c[0] && pos == c[k]
    modifies c
    ensures Deleted(c, k + 1) && Entries(c) == old(Entries(c))
  {
    ghost var rest := [head] + c[k..];
    RestIsRing(c, k);
    assert rest[1] == c[k] && (k + 1 < |c| ==> rest[2] == c[k + 1]);
    assert |rest| > 2 || After(rest, 1) == head;
    DeleteFirst(pos, head, rest);
    assert [head] + rest[2..] == [head] + c[k + 1..];
    RestIsRing(c, k + 1);
  }
}
