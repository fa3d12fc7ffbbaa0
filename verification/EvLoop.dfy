/** The h6_ev_loop and h6_ev_t objects of src/h6_ev.c, updated in place: reference counts, event
    masks and flags, the operation queue, ev_list and the wake-up pipe. Each method is a critical
    section or a step of the loop thread, and its contract is the value-level step of EvModel. */
module EventLoop {
  import opened Base
  import opened EvModel
  import EvSystem
  import opened LinkedList

  class Event {
    var refCount: int
    var events: Mask
    var inLoop: bool
    var loop: EvLoop?

    constructor (mask: Mask)
      ensures refCount == 1 && events == mask && !inLoop && loop == null
    {
      refCount, events, inLoop, loop := 1, mask, false, null;
    }

    function Fields(): Ev
      reads this
    {
      Ev(refCount, events, inLoop, loop != null)
    }
  }

  /** The events from position k on are different and not freed. */
  ghost predicate Remaining(live: set<Event>, d: seq<Event>, k: nat) {
    k <= |d| && Distinct(d[k..]) && forall e :: e in d[k..] ==> e in live
  }

  lemma ReleaseStep(l: Loop<Event>, d: seq<Event>, k: nat)
    requires k < |d| && Remaining(l.evs.Keys, d, k)
    ensures d[k] in l.evs
    ensures var t := EvModel.Unref(EvModel.SyncRemove(l, d[k]), d[k]);
            Remaining(t.evs.Keys, d, k + 1) && ReleaseAll(l, d[k..]) == ReleaseAll(t, d[k + 1..])
  {
    var rest := d[k..];
    assert rest[0] == d[k] && rest[1..] == d[k + 1..];
    assert forall e :: e in rest[1..] ==> e in rest && e != rest[0];
  }

  class EvLoop {
    var quited: bool
    var requestPending: bool
    var pipe: nat                              // unread bytes in the wake-up pipe
    const operations: Queue<Op<Event>>
    var evList: Node?<Event>
    var watched: map<Event, Mask>              // started I/O watchers of libev
    ghost var evNodes: seq<Node<Event>>
    ghost var live: set<Event>                 // events not yet freed

    ghost predicate Valid()
      reads this, operations, operations.nodes, evNodes
    {
      operations.Valid() && List(evList, evNodes)
    }

    ghost function View(): Loop<Event>
      reads this, operations, operations.nodes, evNodes, live
    {
      Loop(map e | e in live :: e.Fields(), operations.Contents(), Data(evNodes), watched,
           requestPending, pipe, quited)
    }

    /** Every node of ev_list is one of before or newly allocated. */
    twostate predicate NoStrangers(before: seq<Node<Event>>)
      reads this
    {
      forall i :: 0 <= i < |evNodes| ==> evNodes[i] in before || fresh(evNodes[i])
    }

    constructor ()
      ensures Valid() && fresh(operations)
      ensures View() == Loop(map[], [], [], map[], false, 0, false)
    {
      quited, requestPending, pipe := false, false, 0;
      operations := new Queue<Op<Event>>();
      evList, watched, evNodes, live := null, map[], [], {};
    }

    /** h6_ev_ref */
    method Ref(e: Event)
      requires Valid() && e in live
      modifies e`refCount
      ensures Valid() && View() == EvModel.Ref(old(View()), e)
      ensures e.refCount == old(e.refCount) + 1
    {
      e.refCount := e.refCount + 1;
    }

    /** h6_ev_unref: the last reference frees the event. */
    method Unref(e: Event)
      requires Valid() && e in live
      modifies e`refCount, `live
      ensures Valid() && View() == EvModel.Unref(old(View()), e)
      ensures e.refCount == old(e.refCount) - 1
      ensures live == if old(e.refCount) == 1 then old(live) - {e} else old(live)
    {
      e.refCount := e.refCount - 1;
      if e.refCount == 0 {
        live := live - {e};
      }
    }

    /** h6_ev_block_wakup */
    method Wakeup()
      requires Valid()
      modifies `requestPending, `pipe
      ensures Valid() && View() == EvModel.Wakeup(old(View()))
      ensures requestPending && pipe == old(pipe) + if old(requestPending) then 0 else 1
    {
      if requestPending {
        return;
      }
      requestPending := true;
      pipe := pipe + 1;
    }

    method Enqueue(op: Op<Event>)
      requires Valid()
      modifies operations, operations.nodes
      ensures Valid() && View() == old(View()).(ops := old(View()).ops + [op])
    {
      operations.PushTail(op);
    }

    /** Queue an operation with the reference it holds, and wake the loop. */
    method Post(op: Op<Event>)
      requires Valid() && (op.QuitOp? || op.event in live)
      modifies `requestPending, `pipe, operations, operations.nodes, if op.QuitOp? then {} else {op.event}
      ensures Valid() && View() == EvModel.Post(old(View()), op)
      ensures !op.QuitOp? ==>
                && op.event.loop == old(op.event.loop) && op.event.events == old(op.event.events)
                && op.event.inLoop == old(op.event.inLoop)
      ensures operations.Contents() == old(operations.Contents()) + [op] && requestPending
      ensures !op.QuitOp? ==> op.event.refCount == old(op.event.refCount) + 1
    {
      if !op.QuitOp? {
        Ref(op.event);
      }
      Enqueue(op);
      Wakeup();
    }

    // ----- Requests -----

    method SetLoop(event: Event)
      requires Valid() && event in live
      modifies event`loop
      ensures Valid() && event.loop == this
      ensures View() == old(View()).(evs := old(View()).evs[event := old(View()).evs[event].(attached := true)])
    {
      event.loop := this;
    }

    method SetEvents(event: Event, mask: Mask)
      requires Valid() && event in live
      modifies event`events
      ensures Valid() && View() == SetMask(old(View()), event, mask)
      ensures event.events == mask
    {
      event.events := mask;
    }

    /** h6_ev_loop_attach */
    method Attach(event: Event) returns (ret: bool)
      requires Valid() && event in live && event.loop == null
      modifies `requestPending, `pipe, operations, operations.nodes, event
      ensures Valid() && View() == EvModel.Attach(old(View()), event) && ret == !quited
      ensures if quited then View() == old(View())
              else
                && event.loop == this && event.refCount == old(event.refCount) + 1 && requestPending
                && operations.Contents() == old(operations.Contents()) + [AddOp(event)]
    {
      ret := false;
      if !quited {
        SetLoop(event);
        Post(AddOp(event));
        ret := true;
      }
    }

    /** h6_ev_loop_remove */
    method Remove(event: Event)
      requires Valid() && event in live && event.loop == this
      modifies `requestPending, `pipe, operations, operations.nodes, event
      ensures Valid() && View() == EvModel.RequestRemove(old(View()), event)
      ensures if quited then View() == old(View())
              else
                && event.refCount == old(event.refCount) + 1 && requestPending
                && operations.Contents() == old(operations.Contents()) + [RemoveOp(event)]
    {
      if !quited {
        Post(RemoveOp(event));
      }
    }

    /** h6_ev_loop_quit */
    method Quit()
      requires Valid()
      modifies `quited, `requestPending, `pipe, operations, operations.nodes
      ensures Valid() && View() == EvModel.Quit(old(View()))
      ensures quited && (!old(quited) ==> requestPending)
      ensures operations.Contents() == old(operations.Contents()) + if old(quited) then [] else [QuitOp]
    {
      if !quited {
        quited := true;
        Post(QuitOp);
      }
    }

    /** A mask change and, for an attached event, h6_ev_loop_modify_event. */
    method ChangeMask(event: Event, mask: Mask)
      requires Valid() && event in live
      modifies `requestPending, `pipe, operations, operations.nodes, event
      ensures Valid() && View() == EvModel.ChangeMask(old(View()), event, mask)
      ensures event.events == mask && event.loop == old(event.loop)
      ensures operations.Contents() ==
              old(operations.Contents()) + if event.loop != null && !quited then [ModifyOp(event)] else []
    {
      SetEvents(event, mask);
      if event.loop != null {
        if !quited {
          Post(ModifyOp(event));
        }
      }
    }

    /** h6_ev_add_events */
    method AddEvents(event: Event, events: Mask)
      requires Valid() && event in live
      modifies `requestPending, `pipe, operations, operations.nodes, event
      ensures Valid() && View() == EvModel.AddEvents(old(View()), event, events)
      ensures event.events == old(event.events) + events
      ensures operations.Contents() == old(operations.Contents()) +
              if event.events != old(event.events) && event.loop != null && !quited then [ModifyOp(event)] else []
    {
      if events == {} {
        return;
      }
      EvSystem.NothingToChange(event.events, events);
      if event.events * events != events {
        ChangeMask(event, event.events + events);
      }
    }

    /** h6_ev_remove_events */
    method RemoveEvents(event: Event, events: Mask)
      requires Valid() && event in live
      modifies `requestPending, `pipe, operations, operations.nodes, event
      ensures Valid() && View() == EvModel.RemoveEvents(old(View()), event, events)
      ensures event.events == old(event.events) - events
      ensures operations.Contents() == old(operations.Contents()) +
              if event.events != old(event.events) && event.loop != null && !quited then [ModifyOp(event)] else []
    {
      if events == {} {
        return;
      }
      EvSystem.NothingToChange(event.events, events);
      if event.events * events != {} {
        ChangeMask(event, event.events - events);
      }
    }

    // ----- The loop thread -----

    /** h6_ev_loop_sync_add */
    method SyncAdd(event: Event)
      requires Valid() && event in live
      modifies `watched, event`inLoop
      ensures Valid() && View() == EvModel.SyncAdd(old(View()), event)
      ensures event.inLoop
      ensures watched == if event.events == {} then old(watched) else old(watched)[event := event.events]
    {
      if event.events != {} {
        watched := watched[event := event.events];
      }
      event.inLoop := true;
    }

    /** h6_ev_loop_sync_remove */
    method SyncRemove(event: Event)
      requires Valid() && event in live
      modifies `watched, event`inLoop
      ensures Valid() && View() == EvModel.SyncRemove(old(View()), event)
      ensures !event.inLoop && watched == old(watched) - {event}
    {
      watched := watched - {event};
      event.inLoop := false;
    }

    /** h6_ev_loop_sync_io_modified */
    method SyncModified(event: Event)
      requires Valid() && event in live
      modifies `watched
      ensures Valid() && View() == EvModel.SyncModified(old(View()), event)
      ensures watched == if !event.inLoop then old(watched)
                         else if event.events == {} then old(watched) - {event}
                         else old(watched)[event := event.events]
    {
      if !event.inLoop {
        return;
      }
      watched := watched - {event};
      if event.events != {} {
        watched := watched[event := event.events];
      }
    }

    /** h6_ev_add_events_sync */
    method AddEventsSync(event: Event, events: Mask)
      requires Valid() && event in live
      modifies `watched, event`events
      ensures Valid() && View() == EvModel.AddEventsSync(old(View()), event, events)
      ensures event.events == old(event.events) + events
      ensures watched == if !event.inLoop || event.events == old(event.events) then old(watched)
                         else if event.events == {} then old(watched) - {event}
                         else old(watched)[event := event.events]
    {
      EvSystem.NothingToChange(event.events, events);
      if event.events * events != events {
        SetEvents(event, event.events + events);
        SyncModified(event);
      }
    }

    /** h6_ev_remove_events_sync */
    method RemoveEventsSync(event: Event, events: Mask)
      requires Valid() && event in live
      modifies `watched, event`events
      ensures Valid() && View() == EvModel.RemoveEventsSync(old(View()), event, events)
      ensures event.events == old(event.events) - events
      ensures watched == if !event.inLoop || event.events == old(event.events) then old(watched)
                         else if event.events == {} then old(watched) - {event}
                         else old(watched)[event := event.events]
    {
      EvSystem.NothingToChange(event.events, events);
      if event.events * events != {} {
        SetEvents(event, event.events - events);
        SyncModified(event);
      }
    }

    /** The list half of h6_ev_loop_ops_add. */
    method Enlist(event: Event)
      requires Valid()
      modifies `evList, `evNodes, evNodes
      ensures Valid() && View() == old(View()).(evList := [event] + old(View()).evList)
      ensures NoStrangers(old(evNodes))
    {
      evList := InsertHead(evList, event, evNodes);
      evNodes := [evList] + evNodes;
    }

    /** h6_ev_loop_ops_add */
    method OpsAdd(event: Event)
      requires Valid() && Tidy(View()) && event in live
      modifies `evList, `evNodes, `watched, evNodes, event`refCount, event`inLoop
      ensures Valid() && View() == Exec(old(View()), AddOp(event)) && NoStrangers(old(evNodes))
      ensures Data(evNodes) == [event] + old(Data(evNodes)) && event.inLoop
      ensures event.refCount == old(event.refCount) + 1
    {
      Enlist(event);
      Ref(event);
      SyncAdd(event);
    }

    /** list_find, list_remove_link and list_free on ev_list. */
    method FindAndFree(event: Event) returns (found: bool)
      requires List(evList, evNodes)
      modifies `evList, `evNodes, evNodes
      ensures List(evList, evNodes) && found == (event in old(Data(evNodes)))
      ensures Data(evNodes) == RemoveFirst(old(Data(evNodes)), event)
      ensures NoStrangers(old(evNodes))
    {
      ghost var k, t;
      evList, found, k, t := FindRemoveFree(evList, event, evNodes);
      evNodes := t;
    }

    /** The list half of h6_ev_loop_ops_remove. */
    method Delist(event: Event) returns (found: bool)
      requires Valid()
      modifies `evList, `evNodes, evNodes
      ensures Valid() && found == (event in old(View()).evList)
      ensures View() == old(View()).(evList := RemoveFirst(old(View()).evList, event))
      ensures NoStrangers(old(evNodes))
    {
      found := FindAndFree(event);
      assert View().evs == old(View()).evs;
    }

    /** h6_ev_loop_ops_remove */
    method OpsRemove(event: Event)
      requires Valid() && Tidy(View()) && event in live
      modifies `evList, `evNodes, `watched, `live, evNodes, event`refCount, event`inLoop
      ensures Valid() && View() == Exec(old(View()), RemoveOp(event)) && NoStrangers(old(evNodes)) && live <= old(live)
      ensures Data(evNodes) == RemoveFirst(old(Data(evNodes)), event)
      ensures if event in old(Data(evNodes)) then
                !event.inLoop && event !in watched && event.refCount == old(event.refCount) - 1
              else
                View() == old(View())
    {
      ghost var l := View();
      var found := Delist(event);
      if found {
        ReleaseOne(event);
      } else {
        RemoveFirstAbsent(l.evList, event);
      }
    }

    /** h6_ev_realse_one */
    method ReleaseOne(event: Event)
      requires Valid() && event in live
      modifies `watched, `live, event`refCount, event`inLoop
      ensures Valid() && View() == EvModel.Unref(EvModel.SyncRemove(old(View()), event), event)
      ensures !event.inLoop && watched == old(watched) - {event} && event.refCount == old(event.refCount) - 1
      ensures live == if old(event.refCount) == 1 then old(live) - {event} else old(live)
    {
      SyncRemove(event);
      Unref(event);
    }

    /** A walk over ev_list has come to position k, at cur, and is on its way to the goal. */
    ghost predicate Walking(cur: Node?<Event>, d: seq<Event>, k: nat, goal: Loop<Event>)
      reads this, operations, operations.nodes, evNodes, live
    {
      && Valid() && Data(evNodes) == d && Remaining(live, d, k)
      && cur == (if k < |d| then evNodes[k] else null)
      && View().evs.Keys == live
      && goal == ReleaseAll(View(), d[k..])
    }

    method ReleaseNext(cur: Node<Event>, ghost d: seq<Event>, ghost k: nat, ghost goal: Loop<Event>)
      returns (next: Node?<Event>)
      requires Walking(cur, d, k, goal) && cur.data in live
      modifies `watched, `live, cur.data`refCount, cur.data`inLoop
      ensures Walking(next, d, k + 1, goal) && live <= old(live)
    {
      next := cur.next;
      assert cur.data == d[k];
      ReleaseStep(View(), d, k);
      ReleaseOne(cur.data);
    }

    /** list_foreach over ev_list with h6_ev_realse_one. */
    method ReleaseEach()
      requires Valid() && Tidy(View())
      modifies `watched, `live, live
      ensures Valid() && View() == ReleaseAll(old(View()), old(View().evList)) && live <= old(live)
    {
      ghost var d, k := View().evList, 0;
      ghost var goal := ReleaseAll(View(), d);
      assert d[0..] == d;
      var cur := evList;
      while cur != null
        invariant live <= old(live) && Walking(cur, d, k, goal)
        decreases |d| - k
      {
        assert cur.data == d[k] && d[k] in d[k..];
        cur := ReleaseNext(cur, d, k, goal);
        k := k + 1;
      }
    }

    /** h6_ev_loop_ops_quit */
    method OpsQuit()
      requires Valid() && Tidy(View())
      modifies `evList, `evNodes, `watched, `live, evNodes, live
      ensures Valid() && View() == Exec(old(View()), QuitOp) && evNodes == [] && live <= old(live)
    {
      ReleaseEach();
      FreeAll();
    }

    method FreeAll()
      requires Valid()
      modifies `evList, `evNodes, evNodes
      ensures Valid() && View() == old(View()).(evList := []) && evNodes == []
    {
      FreeList(evList, evNodes);
      evList, evNodes := null, [];
    }

    /** (*ops->func)(loop, ops) */
    method ExecOp(op: Op<Event>)
      requires Valid() && Tidy(View()) && (op.QuitOp? || op.event in live)
      modifies `evList, `evNodes, `watched, `live, evNodes, live
      ensures Valid() && View() == Exec(old(View()), op) && NoStrangers(old(evNodes)) && live <= old(live)
    {
      match op {
        case AddOp(event) => OpsAdd(event);
        case RemoveOp(event) => OpsRemove(event);
        case ModifyOp(event) => SyncModified(event);
        case QuitOp => OpsQuit();
      }
    }

    method PopOp() returns (r: Option<Op<Event>>)
      requires Valid()
      modifies operations, operations.nodes
      ensures Valid()
      ensures var l := old(View());
              if l.ops == [] then r == None && View() == l
              else r == Some(l.ops[0]) && View() == l.(ops := l.ops[1..])
      ensures old(operations.nodes) != [] ==> operations.nodes == old(operations.nodes)[1..]
    {
      r := operations.PopHead();
    }

    /** Run a popped operation and drop its reference. */
    method RunAndRelease(op: Op<Event>)
      requires Valid() && Tidy(View())
      requires !op.QuitOp? ==> op.event in live && op.event in Exec(View(), op).evs
      modifies `evList, `evNodes, `watched, `live, evNodes, live
      ensures Valid() && NoStrangers(old(evNodes)) && live <= old(live)
      ensures var l := Exec(old(View()), op);
              View() == if op.QuitOp? then l else EvModel.Unref(l, op.event)
    {
      ExecOp(op);
      if !op.QuitOp? {
        assert op.event in View().evs;
        Unref(op.event);
      }
    }

    /** One round of h6_ev_loop_exec_operations: pop, run, and drop the operation's reference. */
    method ReplayOne(ghost held: map<Event, nat>, ghost m: EvSystem.Immediate<Event>) returns (more: bool)
      requires Valid() && EvSystem.Inv(EvSystem.System(View(), held, EvSystem.Replaying), m)
      modifies this, operations, operations.nodes, evNodes, live
      ensures Valid() && NoStrangers(old(evNodes)) && live <= old(live)
      ensures requestPending == old(requestPending) && pipe == old(pipe) && quited == old(quited)
      ensures if more then
                && EvSystem.Inv(EvSystem.System(View(), held, EvSystem.Replaying), m)
                && old(operations.nodes) != [] && operations.nodes == old(operations.nodes)[1..]
              else
                View() == old(View()) && View().ops == []
    {
      ghost var l := View();
      if l.ops != [] {
        EvSystem.ReplayRound(l, held, m);
      }
      var ops := PopOp();
      if ops == None {
        return false;
      }
      RunAndRelease(ops.value);
      return true;
    }

    /** h6_ev_loop_exec_operations with no request coming in between: the loop ends, and the events
        in the loop are then exactly what immediate execution of the requests would have left. */
    method ExecOperations(ghost held: map<Event, nat>, ghost m: EvSystem.Immediate<Event>)
      requires Valid() && EvSystem.Inv(EvSystem.System(View(), held, EvSystem.Replaying), m)
      modifies this, operations, operations.nodes, evNodes, live
      ensures Valid() && EvSystem.Inv(EvSystem.System(View(), held, EvSystem.Idle), m)
      ensures View().ops == [] && EvModel.View(View()) == m.loop
      ensures requestPending == old(requestPending) && pipe == old(pipe) && quited == old(quited)
    {
      var more := true;
      while more
        invariant Valid() && EvSystem.Inv(EvSystem.System(View(), held, EvSystem.Replaying), m)
        invariant live <= old(live) && NoStrangers(old(evNodes))
        invariant forall i :: 0 <= i < |operations.nodes| ==> operations.nodes[i] in old(operations.nodes)
        invariant !more ==> View().ops == []
        invariant requestPending == old(requestPending) && pipe == old(pipe) && quited == old(quited)
        decreases |operations.nodes|, more
      {
        more := ReplayOne(held, m);
      }
      EvSystem.ReplayDone(View(), held, m);
    }

    /** h6_ev_block_woken_up */
    method WokenUp()
      requires Valid() && pipe > 0
      modifies `requestPending, `pipe
      ensures Valid() && View() == EvModel.WokenUp(old(View()))
      ensures !requestPending && pipe == old(pipe) - 1
    {
      requestPending := false;
      pipe := pipe - 1;
    }

    /** h6_ev_loop_force_woken_up: take the byte out of the pipe and replay. */
    method ForceWokenUp(ghost held: map<Event, nat>, ghost m: EvSystem.Immediate<Event>)
      requires Valid() && EvSystem.Inv(EvSystem.System(View(), held, EvSystem.Idle), m) && pipe > 0
      modifies this, operations, operations.nodes, evNodes, live
      ensures Valid() && EvSystem.Inv(EvSystem.System(View(), held, EvSystem.Idle), m)
      ensures View().ops == [] && EvModel.View(View()) == m.loop
      ensures !requestPending && pipe == 0 && quited == old(quited)
    {
      ghost var s := EvSystem.System(View(), held, EvSystem.Idle);
      EvSystem.LoopStepInv(s, m, EvSystem.Wake);
      WokenUp();
      ExecOperations(held, m);
    }
  }
}
