/** The deferred-operation event loop of src/h6_ev.c as values: what each critical section does
    to the shared state of a loop and its events. E is the type of event handles. */
module EvModel {
  import opened Base
  import LinkedList

  datatype Flag = EvRead | EvWrite
  type Mask = set<Flag>

  datatype Op<E> = AddOp(event: E) | RemoveOp(event: E) | ModifyOp(event: E) | QuitOp

  /** An h6_ev_t: reference count, wanted events, FLAGS_EVENT_IN_LOOP, and opt->loop != NULL. */
  datatype Ev = Ev(refs: int, mask: Mask, inLoop: bool, attached: bool)

  /** A loop: the events not yet freed, the operation queue, ev_list, the I/O watchers started in
      libev with the mask each was started with, and the wake-up pipe. */
  datatype Loop<E> = Loop(
    evs: map<E, Ev>, ops: seq<Op<E>>, evList: seq<E>, watched: map<E, Mask>,
    requestPending: bool, pipe: nat, quited: bool)

  function Ref<E>(l: Loop<E>, e: E): Loop<E>
    requires e in l.evs
  {
    l.(evs := l.evs[e := l.evs[e].(refs := l.evs[e].refs + 1)])
  }

  /** h6_ev_unref: the last reference frees the event. */
  function Unref<E>(l: Loop<E>, e: E): Loop<E>
    requires e in l.evs
  {
    if l.evs[e].refs == 1 then l.(evs := l.evs - {e})
    else l.(evs := l.evs[e := l.evs[e].(refs := l.evs[e].refs - 1)])
  }

  /** h6_ev_block_wakup: at most one byte is ever unread. */
  function Wakeup<E>(l: Loop<E>): Loop<E> {
    if l.requestPending then l else l.(requestPending := true, pipe := l.pipe + 1)
  }

  /** Queue an operation on e together with the reference it holds. */
  function Post<E>(l: Loop<E>, op: Op<E>): Loop<E>
    requires op.QuitOp? || op.event in l.evs
  {
    var l' := if op.QuitOp? then l else Ref(l, op.event);
    Wakeup(l'.(ops := l'.ops + [op]))
  }

  // ----- Requests, each a critical section of some thread -----

  function Attach<E>(l: Loop<E>, e: E): Loop<E>
    requires e in l.evs
  {
    if l.quited then l else Post(l.(evs := l.evs[e := l.evs[e].(attached := true)]), AddOp(e))
  }

  function RequestRemove<E>(l: Loop<E>, e: E): Loop<E>
    requires e in l.evs
  {
    if l.quited then l else Post(l, RemoveOp(e))
  }

  function SetMask<E>(l: Loop<E>, e: E, m: Mask): Loop<E>
    requires e in l.evs
  {
    l.(evs := l.evs[e := l.evs[e].(mask := m)])
  }

  /** The mask change of h6_ev_add_events or h6_ev_remove_events with its enqueue. */
  function ChangeMask<E>(l: Loop<E>, e: E, m: Mask): Loop<E>
    requires e in l.evs
  {
    var l' := SetMask(l, e, m);
    if l.evs[e].attached && !l.quited then Post(l', ModifyOp(e)) else l'
  }

  function AddEvents<E>(l: Loop<E>, e: E, events: Mask): Loop<E>
    requires e in l.evs
  {
    if events == {} then l
    else if l.evs[e].mask * events != events then ChangeMask(l, e, l.evs[e].mask + events)
    else l
  }

  function RemoveEvents<E>(l: Loop<E>, e: E, events: Mask): Loop<E>
    requires e in l.evs
  {
    if events == {} then l
    else if l.evs[e].mask * events != {} then ChangeMask(l, e, l.evs[e].mask - events)
    else l
  }

  function Quit<E>(l: Loop<E>): Loop<E> {
    if l.quited then l else Post(l.(quited := true), QuitOp)
  }

  // ----- What the loop thread does -----

  function StartIo<E>(l: Loop<E>, e: E): Loop<E>
    requires e in l.evs
  {
    if l.evs[e].mask == {} then l else l.(watched := l.watched[e := l.evs[e].mask])
  }

  function StopIo<E>(l: Loop<E>, e: E): Loop<E> {
    l.(watched := l.watched - {e})
  }

  function SetInLoop<E>(l: Loop<E>, e: E, b: bool): Loop<E>
    requires e in l.evs
  {
    l.(evs := l.evs[e := l.evs[e].(inLoop := b)])
  }

  function SyncAdd<E>(l: Loop<E>, e: E): Loop<E>
    requires e in l.evs
  {
    SetInLoop(StartIo(l, e), e, true)
  }

  function SyncRemove<E>(l: Loop<E>, e: E): Loop<E>
    requires e in l.evs
  {
    SetInLoop(StopIo(l, e), e, false)
  }

  function SyncModified<E>(l: Loop<E>, e: E): Loop<E>
    requires e in l.evs
  {
    if !l.evs[e].inLoop then l else StartIo(StopIo(l, e), e)
  }

  function AddEventsSync<E>(l: Loop<E>, e: E, events: Mask): Loop<E>
    requires e in l.evs
  {
    if l.evs[e].mask * events != events then SyncModified(SetMask(l, e, l.evs[e].mask + events), e) else l
  }

  function RemoveEventsSync<E>(l: Loop<E>, e: E, events: Mask): Loop<E>
    requires e in l.evs
  {
    if l.evs[e].mask * events != {} then SyncModified(SetMask(l, e, l.evs[e].mask - events), e) else l
  }

  /** list_foreach(ev_list, h6_ev_realse_one) */
  function ReleaseAll<E>(l: Loop<E>, list: seq<E>): Loop<E>
    requires Distinct(list) && forall e :: e in list ==> e in l.evs
    decreases |list|
  {
    if list == [] then l else ReleaseAll(Unref(SyncRemove(l, list[0]), list[0]), list[1..])
  }

  /** The loop's own list holds each event once, and only events that are not freed. */
  ghost predicate Tidy<E>(l: Loop<E>) {
    Distinct(l.evList) && forall e :: e in l.evList ==> e in l.evs
  }

  /** (*ops->func)(loop, ops) */
  function Exec<E>(l: Loop<E>, op: Op<E>): Loop<E>
    requires Tidy(l) && (op.QuitOp? || op.event in l.evs)
  {
    match op
    case AddOp(e) => SyncAdd(Ref(l.(evList := [e] + l.evList), e), e)
    case RemoveOp(e) =>
      if e in l.evList then Unref(SyncRemove(l.(evList := LinkedList.RemoveFirst(l.evList, e)), e), e) else l
    case ModifyOp(e) => SyncModified(l, e)
    case QuitOp => ReleaseAll(l, l.evList).(evList := [])
  }

  /** h6_ev_block_woken_up */
  function WokenUp<E>(l: Loop<E>): Loop<E>
    requires l.pipe > 0
  {
    l.(requestPending := false, pipe := l.pipe - 1)
  }

  /** The pop and the call in h6_ev_loop_exec_operations. */
  function PopExec<E>(l: Loop<E>): Loop<E>
    requires Tidy(l) && l.ops != [] && (l.ops[0].QuitOp? || l.ops[0].event in l.evs)
  {
    Exec(l.(ops := l.ops[1..]), l.ops[0])
  }

  /** What libev watches an event for. */
  function WatchedMask<E>(l: Loop<E>, e: E): Mask {
    if e in l.watched then l.watched[e] else {}
  }

  /** The abstract value of a loop: the events in it with the masks they are watched for. */
  function View<E>(l: Loop<E>): map<E, Mask> {
    map e | e in l.evList :: WatchedMask(l, e)
  }
}
