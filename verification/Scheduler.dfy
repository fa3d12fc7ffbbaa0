/** The h6_scher_t object of src/h6_sched.c: an array of loop weights, the total weight and the
    linked list of sources, updated in place under the scheduler's lock. */
module Scheduler {
  import opened Base
  import opened SchedModel
  import LinkedList

  class Scheduler<S(==)> {
    const loops: array<uint32>
    var totalWeight: uint32
    var wList: LinkedList.Node?<Entry<S>>
    ghost var nodes: seq<LinkedList.Node<Entry<S>>>

    ghost predicate Valid()
      reads this, loops, nodes
    {
      Linked() && Inv(View())
    }

    ghost predicate Linked()
      reads this, nodes
    {
      LinkedList.List(wList, nodes)
    }

    ghost function View(): Sched<S>
      reads this, loops, nodes
    {
      Sched(loops[..], totalWeight, LinkedList.Data(nodes))
    }

    constructor (count: nat)
      requires count >= 1
      ensures Valid() && Init(View()) && |View().weights| == count && fresh(loops)
    {
      loops := new uint32[count](_ => 0);
      totalWeight, wList, nodes := 0, null, [];
      new;
      SumZero(loops[..]);
    }

    /** h6_find_best_loop: the search starts from the total weight. */
    method FindBestLoop() returns (best: nat)
      requires Valid()
      ensures best == FindBest(View()) < loops.Length
      ensures forall j :: 0 <= j < loops.Length ==> loops[best] <= loops[j]
    {
      var bestW := totalWeight;
      best := 0;
      var idx := 0;
      while idx < loops.Length
        invariant idx <= loops.Length && (best, bestW) == Scan(loops[..], totalWeight, idx)
      {
        var w := loops[idx];
        if w < bestW {
          bestW := w;
          best := idx;
        }
        idx := idx + 1;
      }
      BestIsLightest(View());
      assert forall j :: 0 <= j < loops.Length ==> loops[j] == View().weights[j];
    }

    /** The two counters of a loop's weight, changed by delta. */
    method Charge(i: nat, delta: int)
      requires i < loops.Length && Linked()
      modifies this`totalWeight, loops
      ensures Linked() && LinkedList.Data(nodes) == old(LinkedList.Data(nodes))
      ensures loops[..] == old(loops[..])[i := Wrap(old(loops[i]) + delta)]
      ensures totalWeight == Wrap(old(totalWeight) + delta)
    {
      loops[i] := Wrap(loops[i] + delta);
      totalWeight := Wrap(totalWeight + delta);
    }

    method Enlist(sw: Entry<S>)
      requires Linked()
      modifies `wList, `nodes, nodes
      ensures Linked() && LinkedList.Data(nodes) == [sw] + old(LinkedList.Data(nodes))
      ensures loops[..] == old(loops[..])
    {
      wList := LinkedList.InsertHead(wList, sw, nodes);
      nodes := [wList] + nodes;
    }

    method Delist(list: LinkedList.Node<Entry<S>>, ghost k: nat)
      requires Linked() && k < |nodes| && list == nodes[k]
      modifies `wList, `nodes, nodes
      ensures Linked() && LinkedList.Data(nodes) == Without(old(LinkedList.Data(nodes)), k)
      ensures list.freed && loops[..] == old(loops[..])
    {
      wList := LinkedList.DeleteLink(wList, list, nodes, k);
      nodes := Without(nodes, k);
    }

    /** _h6_sched_add */
    method Add(src: S, weight: uint32)
      requires Valid() && totalWeight + weight < U32
      modifies this, loops, nodes
      ensures Valid() && View() == SchedModel.Add(old(View()), src, weight)
    {
      ghost var before := View();
      var best := FindBestLoop();
      Charge(best, weight);
      Enlist(Entry(weight, src, best));
      assert View() == Place(before, best, src, weight);
      AddKeepsInv(before, src, weight);
    }

    method FindSource(src: S) returns (list: LinkedList.Node?<Entry<S>>, ghost k: nat)
      requires Linked()
      ensures list != null ==> list.data.src == src
      ensures list == null <==> forall e :: e in LinkedList.Data(nodes) ==> e.src != src
      ensures k == Find(LinkedList.Data(nodes), src)
      ensures if list == null then k == |nodes| else k < |nodes| && list == nodes[k]
    {
      list, k := LinkedList.FindBy(wList, (e: Entry<S>) => e.src == src, nodes);
      FindIs(LinkedList.Data(nodes), src, k);
    }

    /** _h6_sched_remove */
    method Remove(src: S) returns (ret: int)
      requires Valid()
      modifies this, loops, nodes
      ensures Valid() && (View(), ret) == SchedModel.Remove(old(View()), src)
    {
      ghost var before := View();
      var list; ghost var k;
      list, k := FindSource(src);
      if list != null {
        var sw := list.data;
        assert sw == before.entries[k];
        Charge(sw.loop, -(sw.w as int));
        Delist(list, k);
        ret := 0;
      } else {
        ret := -1;
      }
      assert View() == SchedModel.Remove(before, src).0;
      RemoveKeepsInv(before, src);
    }
  }

  /** The first matching entry is where Find says. */
  lemma {:induction false} FindIs<S>(entries: seq<Entry<S>>, src: S, k: nat)
    requires k <= |entries| && (k < |entries| ==> entries[k].src == src)
    requires forall i :: 0 <= i < k ==> entries[i].src != src
    ensures Find(entries, src) == k
  {
    if k > 0 {
      FindIs(entries[1..], src, k - 1);
    }
  }
}
