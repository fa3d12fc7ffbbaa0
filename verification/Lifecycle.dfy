/** The client and its watch (src/network_client.c, src/proto_watch.c): each keeps a reference to
    the other, and a kill through the client breaks the cycle while senders may be in flight. The
    shared state is a value, and every function here is what one critical section or one atomic
    reference-count operation does to it. */
module Lifecycle {
  import opened Base

  datatype LoopOp = AddOp | RemoveOp | ModifyOp

  /** client: reference count, STATE_KILLED, proto_watch != NULL, finalised. watch: the same, with
      sched != NULL and event->opt->loop != NULL (attached). The loop keeps references in its queue
      (ops) and in ev_list (listed); its quit operation is queued behind all others. kills counts
      how often a watch was taken out of the client to be killed. */
  datatype Shared = Shared(
    cRef: int, cKilled: bool, hasWatch: bool, cFinal: bool,
    wRef: int, wKilled: bool, sched: bool, attached: bool, wFinal: bool,
    ops: seq<LoopOp>, listed: bool, quited: bool, quitQueued: bool, kills: nat)

  /** After init_this: the creator's reference and the watch's on the client, the client's on the
      watch. */
  const CREATED := Shared(2, false, true, false, 1, false, false, false, false, [], false, false, false, 0)

  /** The last reference to the client runs finalize_this, which kills and releases a watch that is
      still set. */
  function UnrefClient(s: Shared): Shared {
    var t := s.(cRef := s.cRef - 1);
    if t.cRef != 0 then t
    else if t.hasWatch then ReleaseWatch(t.(cFinal := true, hasWatch := false))
    else t.(cFinal := true)
  }

  /** proto_watch_kill_unref in a finaliser. In no reachable state does it drop the last reference. */
  function ReleaseWatch(s: Shared): Shared {
    var t := KillWatch(s);
    t.(wRef := t.wRef - 1)
  }

  lemma KillKeeps(s: Shared)
    ensures var t := KillWatch(s);
            && t.wKilled && (!s.wKilled ==> !t.sched) && t.wRef - |t.ops| == s.wRef - |s.ops|
            && t.cRef == s.cRef && t.cFinal == s.cFinal && t.hasWatch == s.hasWatch
  {
    if !s.wKilled && s.sched {
      var u := s.(wKilled := true, sched := false);
      assert PostOp(u, RemoveOp).ops == if s.quited then s.ops else s.ops + [RemoveOp];
    }
  }

  /** A client finalised with its watch still set kills the watch and gives up its reference to it. */
  lemma LastUnrefReleases(s: Shared)
    requires s.cRef == 1
    ensures var t := UnrefClient(s);
            && t.cRef == 0 && t.cFinal && !t.hasWatch
            && if s.hasWatch then t.wKilled && (!s.wKilled ==> !t.sched) && t.wRef - |t.ops| == s.wRef - |s.ops| - 1
               else t == s.(cRef := 0, cFinal := true)
  {
    if s.hasWatch {
      KillKeeps(s.(cRef := 0, cFinal := true, hasWatch := false));
    }
  }

  /** The last reference to the watch finalises it and then drops its reference to the client. */
  function UnrefWatch(s: Shared): Shared {
    var t := s.(wRef := s.wRef - 1);
    if t.wRef != 0 then t else UnrefClient(t.(wFinal := true))
  }

  /** The critical section of send_msg, send_mb and consumable. */
  function RefForSend(s: Shared): (Shared, bool) {
    if s.cKilled then (s, false) else (s.(wRef := s.wRef + 1), true)
  }

  /** The critical section of network_client_self_kill: whoever finds the client alive takes the
      watch, and the client's reference to it. */
  function TakeForKill(s: Shared): (Shared, bool) {
    if s.cKilled then (s, false)
    else (s.(cKilled := true, hasWatch := false, kills := s.kills + 1), s.hasWatch)
  }

  function PostOp(s: Shared, op: LoopOp): Shared {
    if s.quited then s else s.(ops := s.ops + [op], wRef := s.wRef + 1)
  }

  /** proto_watch_kill */
  function KillWatch(s: Shared): Shared {
    if s.wKilled then s
    else if s.sched then PostOp(s.(wKilled := true, sched := false), RemoveOp)
    else s.(wKilled := true)
  }

  /** proto_watch_attach: the scheduler is recorded even if its loop refuses the event. */
  function AttachWatch(s: Shared): Shared {
    if s.wKilled || s.sched then s
    else if s.quited then s.(sched := true)
    else PostOp(s.(sched := true, attached := true), AddOp)
  }

  /** h6_ev_add_events past the unlock of a write: posts says that the mask did not have EV_WRITE. */
  function AddWriteInterest(s: Shared, posts: bool): Shared {
    if posts && s.attached then PostOp(s, ModifyOp) else s
  }

  /** The loop runs the operation at the head of its queue; its reference is dropped later. */
  function ExecOp(s: Shared): Shared
    requires s.ops != []
  {
    var t := s.(ops := s.ops[1..]);
    match s.ops[0]
    case AddOp => t.(listed := true, wRef := t.wRef + 1)
    case RemoveOp => if t.listed then UnrefWatch(t.(listed := false)) else t
    case ModifyOp => t
  }

  function SetQuit(s: Shared): Shared {
    if s.quited then s else s.(quited := true, quitQueued := true)
  }

  /** The quit operation, when everything queued before it has run. */
  function RunQuit(s: Shared): Shared {
    (if s.listed then UnrefWatch(s.(listed := false)) else s).(quitQueued := false)
  }

  // ----- Threads -----

  /** A thread outside or inside a call on the client: holding a reference to it; attaching, with a
      pointer to the watch but no reference to it; in flight with a reference to the watch (writing,
      about to add EV_WRITE, about to let go); or killing. */
  datatype Pc = Outside | Holding | Attaching | Sending | Adding | Sent | Took | WatchKilled | Dropping

  function ClientRefs(pc: Pc): nat {
    if pc == Outside then 0 else 1
  }

  function WatchRefs(pc: Pc): nat {
    if pc in {Sending, Adding, Sent, Took, WatchKilled} then 1 else 0
  }

  /** The loop thread: waiting, dispatching to the watch, in a callback, or past an operation
      whose reference it has still to drop. */
  datatype LoopPc = Waiting | Dispatching | InCallback(pc: Pc) | Releasing

  datatype System = System(s: Shared, threads: seq<Pc>, loop: LoopPc)

  datatype Tid = Thread(i: nat) | LoopThread

  predicate Known(y: System, t: Tid) {
    t.Thread? ==> t.i < |y.threads|
  }

  function PcOf(y: System, t: Tid): Pc
    requires Known(y, t)
  {
    if t.Thread? then y.threads[t.i] else if y.loop.InCallback? then y.loop.pc else Outside
  }

  /** Thread t moves to pc and leaves the shared state as s. */
  function Move(y: System, t: Tid, pc: Pc, s: Shared): System
    requires Known(y, t)
  {
    if t.Thread? then y.(s := s, threads := y.threads[t.i := pc]) else y.(s := s, loop := InCallback(pc))
  }

  datatype Action =
    | Share(t: Tid, to: nat) | BeginAttach(t: Tid) | DoAttach(t: Tid)
    | BeginSend(t: Tid) | DoWrite(t: Tid, pending: bool) | AddEvents(t: Tid, posts: bool) | EndSend(t: Tid)
    | BeginKill(t: Tid) | DoKill(t: Tid) | EndKill(t: Tid) | DropClient(t: Tid)
    | Dispatch | Callback | Return | EndDispatch | Exec | Release | DoQuit | ExecQuit

  predicate Enabled(y: System, a: Action) {
    match a
    case Share(t, to) => Known(y, t) && PcOf(y, t) == Holding && to < |y.threads| && y.threads[to] == Outside
    case BeginAttach(t) => Known(y, t) && PcOf(y, t) == Holding
    case DoAttach(t) => Known(y, t) && PcOf(y, t) == Attaching
    case BeginSend(t) => Known(y, t) && PcOf(y, t) == Holding
    case DoWrite(t, _) => Known(y, t) && PcOf(y, t) == Sending
    case AddEvents(t, _) => Known(y, t) && PcOf(y, t) == Adding
    case EndSend(t) => Known(y, t) && PcOf(y, t) == Sent
    case BeginKill(t) => Known(y, t) && PcOf(y, t) == Holding
    case DoKill(t) => Known(y, t) && PcOf(y, t) == Took
    case EndKill(t) => Known(y, t) && PcOf(y, t) == WatchKilled
    case DropClient(t) => Known(y, t) && (PcOf(y, t) == Dropping || PcOf(y, t) == Holding)
    case Dispatch => y.loop == Waiting && y.s.listed
    case Callback => y.loop == Dispatching
    case Return => y.loop == InCallback(Outside)
    case EndDispatch => y.loop == Dispatching
    case Exec => y.loop == Waiting && y.s.ops != []
    case Release => y.loop == Releasing
    case DoQuit => true
    case ExecQuit => y.loop == Waiting && y.s.ops == [] && y.s.quitQueued
  }

  /** The thread that takes a step inside a call. */
  function Mover(a: Action): Tid {
    match a
    case BeginAttach(t) => t
    case DoAttach(t) => t
    case BeginSend(t) => t
    case DoWrite(t, _) => t
    case AddEvents(t, _) => t
    case EndSend(t) => t
    case BeginKill(t) => t
    case DoKill(t) => t
    case EndKill(t) => t
    case DropClient(t) => t
    case _ => LoopThread
  }

  predicate IsMove(a: Action) {
    || a.BeginAttach? || a.DoAttach? || a.BeginSend? || a.DoWrite? || a.AddEvents? || a.EndSend?
    || a.BeginKill? || a.DoKill? || a.EndKill? || a.DropClient?
  }

  /** What a thread's step does to the shared state, and where it leaves the thread. */
  function Effect(s: Shared, a: Action): (Shared, Pc) {
    match a
    case BeginAttach(_) => (s, if s.hasWatch then Attaching else Holding)
    case DoAttach(_) => (AttachWatch(s), Holding)
    case BeginSend(_) => var (s', ok) := RefForSend(s); (s', if ok then Sending else Holding)
    case DoWrite(_, pending) => (s, if pending && !s.wKilled then Adding else Sent)
    case AddEvents(_, posts) => (AddWriteInterest(s, posts), Sent)
    case EndSend(_) => (UnrefWatch(s), Holding)
    case BeginKill(_) => var (s', ok) := TakeForKill(s); (s', if ok then Took else Dropping)
    case DoKill(_) => (KillWatch(s), WatchKilled)
    case EndKill(_) => (UnrefWatch(s), Dropping)
    case DropClient(_) => (UnrefClient(s), Outside)
    case _ => (s, Outside)
  }

  function Step(y: System, a: Action): System
    requires Enabled(y, a)
  {
    var s := y.s;
    if IsMove(a) then
      var (s', pc) := Effect(s, a);
      Move(y, Mover(a), pc, s')
    else match a
      case Share(_, to) => y.(s := s.(cRef := s.cRef + 1), threads := y.threads[to := Holding])
      case Dispatch => y.(loop := Dispatching)
      case Callback => y.(s := s.(cRef := s.cRef + 1), loop := InCallback(Holding))
      case Return => y.(loop := Dispatching)
      case EndDispatch => y.(loop := Waiting)
      case Exec => y.(s := ExecOp(s), loop := Releasing)
      case Release => y.(s := UnrefWatch(s), loop := Waiting)
      case DoQuit => y.(s := SetQuit(s))
      case ExecQuit => y.(s := RunQuit(s))
  }

  // ----- Reference conservation -----

  function SumRefs(pcs: seq<Pc>, refs: Pc -> nat): nat {
    if pcs == [] then 0 else SumRefs(pcs[..|pcs| - 1], refs) + refs(pcs[|pcs| - 1])
  }

  lemma {:induction false} SumMove(pcs: seq<Pc>, i: nat, pc: Pc, refs: Pc -> nat)
    requires i < |pcs|
    ensures SumRefs(pcs[i := pc], refs) == SumRefs(pcs, refs) - refs(pcs[i]) + refs(pc)
  {
    var n := |pcs| - 1;
    if i == n {
      assert pcs[i := pc][..n] == pcs[..n];
    } else {
      assert pcs[i := pc][..n] == pcs[..n][i := pc];
      SumMove(pcs[..n], i, pc, refs);
    }
  }

  lemma {:induction false} PartOfSum(pcs: seq<Pc>, i: nat, refs: Pc -> nat)
    requires i < |pcs|
    ensures refs(pcs[i]) <= SumRefs(pcs, refs)
  {
    var n := |pcs| - 1;
    if i < n {
      PartOfSum(pcs[..n], i, refs);
    }
  }

  function LoopClientRefs(l: LoopPc): nat {
    if l.InCallback? then ClientRefs(l.pc) else 0
  }

  function LoopWatchRefs(l: LoopPc): nat {
    if l.InCallback? then WatchRefs(l.pc) else if l.Releasing? then 1 else 0
  }

  function CallersOfClient(y: System): nat {
    SumRefs(y.threads, ClientRefs) + LoopClientRefs(y.loop)
  }

  function UsersOfWatch(y: System): nat {
    SumRefs(y.threads, WatchRefs) + LoopWatchRefs(y.loop)
  }

  predicate Balanced(s: Shared, callers: nat, users: nat) {
    && s.cRef == callers + (if s.wFinal then 0 else 1)
    && s.wRef == users + (if s.hasWatch then 1 else 0) + |s.ops| + (if s.listed then 1 else 0)
    && (s.wFinal <==> s.wRef == 0) && (s.cFinal <==> s.cRef == 0)
    && (s.hasWatch <==> !s.cKilled)
    && s.kills == (if s.cKilled then 1 else 0)
  }

  /** A thread that has taken the watch and has still to kill it. */
  function AtTook(pc: Pc): nat {
    if pc == Took then 1 else 0
  }

  function KillsPending(y: System): nat {
    SumRefs(y.threads, AtTook) + if y.loop.InCallback? then AtTook(y.loop.pc) else 0
  }

  /** Whether the watch will be in ev_list when the queued operations have run. */
  function WillList(listed: bool, ops: seq<LoopOp>): bool {
    if ops == [] then listed
    else
      var n := |ops| - 1;
      if ops[n] == ModifyOp then WillList(listed, ops[..n]) else ops[n] == AddOp
  }

  /** The watch enters ev_list at most once; an open loop will have it exactly while it is attached
      and not killed, and a loop that has quit lets go of it. One thread is about to kill a watch that
      has been taken, until it has. */
  predicate Orderly(s: Shared, pending: nat) {
    && pending == (if s.cKilled && !s.wKilled then 1 else 0)
    && (s.wKilled ==> s.cKilled && !s.sched)
    && multiset(s.ops)[AddOp] + (if s.listed then 1 else 0) <= (if s.attached then 1 else 0)
    && (s.attached ==> s.sched || s.wKilled) && (s.sched && !s.attached ==> s.quited)
    && (!s.quited ==> (WillList(s.listed, s.ops) <==> s.sched))
    && (s.quitQueued ==> s.quited) && (s.quited && !s.quitQueued ==> s.ops == [] && !s.listed)
  }

  predicate Inv(y: System) {
    && Balanced(y.s, CallersOfClient(y), UsersOfWatch(y))
    && Orderly(y.s, KillsPending(y))
    && (y.loop.Dispatching? || y.loop.InCallback? ==> y.s.listed)
  }

  /** One thread has just created the client and holds it; the others are outside. */
  predicate Init(y: System) {
    && y.s == CREATED && y.loop == Waiting && y.threads != []
    && forall i :: 0 <= i < |y.threads| ==> y.threads[i] == if i == 0 then Holding else Outside
  }

  lemma {:induction false} SumZero(pcs: seq<Pc>, refs: Pc -> nat)
    requires forall i :: 0 <= i < |pcs| ==> refs(pcs[i]) == 0
    ensures SumRefs(pcs, refs) == 0
  {
    if pcs != [] {
      SumZero(pcs[..|pcs| - 1], refs);
    }
  }

  lemma FirstOnly(pcs: seq<Pc>, refs: Pc -> nat)
    requires pcs != [] && refs(Outside) == 0 && forall i :: 0 < i < |pcs| ==> pcs[i] == Outside
    ensures SumRefs(pcs, refs) == refs(pcs[0])
  {
    SumMove(pcs, 0, Outside, refs);
    SumZero(pcs[0 := Outside], refs);
  }

  lemma InitInv(y: System)
    requires Init(y)
    ensures Inv(y)
  {
    FirstOnly(y.threads, ClientRefs);
    FirstOnly(y.threads, WatchRefs);
    FirstOnly(y.threads, AtTook);
  }

  /** A thread's references are among those counted. */
  lemma OwnRefs(y: System, t: Tid)
    requires Known(y, t)
    ensures ClientRefs(PcOf(y, t)) <= CallersOfClient(y)
    ensures WatchRefs(PcOf(y, t)) <= UsersOfWatch(y)
    ensures AtTook(PcOf(y, t)) <= KillsPending(y)
  {
    if t.Thread? {
      PartOfSum(y.threads, t.i, ClientRefs);
      PartOfSum(y.threads, t.i, WatchRefs);
      PartOfSum(y.threads, t.i, AtTook);
    }
  }

  /** Moving one thread changes the counts by that thread's own part. */
  lemma MoveRefs(y: System, t: Tid, pc: Pc, s: Shared)
    requires Known(y, t) && PcOf(y, t) != Outside
    ensures var z := Move(y, t, pc, s);
            && CallersOfClient(z) == CallersOfClient(y) - ClientRefs(PcOf(y, t)) + ClientRefs(pc)
            && UsersOfWatch(z) == UsersOfWatch(y) - WatchRefs(PcOf(y, t)) + WatchRefs(pc)
            && KillsPending(z) == KillsPending(y) - AtTook(PcOf(y, t)) + AtTook(pc)
  {
    if t.Thread? {
      SumMove(y.threads, t.i, pc, ClientRefs);
      SumMove(y.threads, t.i, pc, WatchRefs);
      SumMove(y.threads, t.i, pc, AtTook);
    }
  }

  /** t differs from s only in the reference counts and what they decide. */
  predicate SameButRefs(s: Shared, t: Shared) {
    t == s.(wRef := t.wRef, wFinal := t.wFinal, cRef := t.cRef, cFinal := t.cFinal)
  }

  /** Dropping one of the users' references to the watch; the last one drops the watch's own
      reference to the client. */
  lemma UnrefWatchBalanced(s: Shared, callers: nat, users: nat)
    requires Balanced(s, callers, users + 1)
    ensures var t := UnrefWatch(s);
            && Balanced(t, callers, users)
            && SameButRefs(s, t)
  {
  }

  lemma UnrefClientBalanced(s: Shared, callers: nat, users: nat)
    requires Balanced(s, callers + 1, users)
    ensures var t := UnrefClient(s);
            && Balanced(t, callers, users)
            && SameButRefs(s, t) && t.wRef == s.wRef
  {
  }

  /** Orderly does not look at the reference counts. */
  lemma OrderlyFrame(s: Shared, t: Shared, pending: nat)
    requires Orderly(s, pending)
    requires SameButRefs(s, t)
    ensures Orderly(t, pending)
  {
  }

  lemma WillListSnoc(listed: bool, ops: seq<LoopOp>, op: LoopOp)
    ensures WillList(listed, ops + [op]) == if op == ModifyOp then WillList(listed, ops) else op == AddOp
  {
    assert (ops + [op])[..|ops|] == ops;
  }

  /** Running the head of the queue changes what is listed now, not what will be. */
  lemma {:induction false} WillListPop(listed: bool, ops: seq<LoopOp>)
    requires ops != []
    ensures WillList(if ops[0] == ModifyOp then listed else ops[0] == AddOp, ops[1..]) == WillList(listed, ops)
  {
    var n := |ops| - 1;
    if n > 0 {
      WillListPop(listed, ops[..n]);
      assert ops[..n][1..] == ops[1..][..n - 1];
    }
  }

  lemma PostBalanced(s: Shared, op: LoopOp, callers: nat, users: nat)
    requires Balanced(s, callers, users) && !s.wFinal
    ensures Balanced(PostOp(s, op), callers, users)
  {
  }

  lemma KillBalanced(s: Shared, callers: nat, users: nat)
    requires Balanced(s, callers, users) && !s.wFinal
    ensures Balanced(KillWatch(s), callers, users) && KillWatch(s).listed == s.listed
  {
    PostBalanced(s.(wKilled := true, sched := false), RemoveOp, callers, users);
  }

  lemma KillOrderly(s: Shared)
    requires Orderly(s, 1)
    ensures Orderly(KillWatch(s), 0)
  {
    WillListSnoc(s.listed, s.ops, RemoveOp);
  }

  lemma AttachBalanced(s: Shared, callers: nat, users: nat)
    requires Balanced(s, callers, users) && !s.wFinal
    ensures Balanced(AttachWatch(s), callers, users)
  {
    PostBalanced(s.(sched := true, attached := true), AddOp, callers, users);
  }

  lemma AttachOrderly(s: Shared, pending: nat)
    requires Orderly(s, pending)
    ensures Orderly(AttachWatch(s), pending)
  {
    WillListSnoc(s.listed, s.ops, AddOp);
  }

  lemma AddInterestOrderly(s: Shared, posts: bool, pending: nat)
    requires Orderly(s, pending)
    ensures Orderly(AddWriteInterest(s, posts), pending)
  {
    assert multiset(s.ops + [ModifyOp])[AddOp] == multiset(s.ops)[AddOp];
    WillListSnoc(s.listed, s.ops, ModifyOp);
  }

  lemma TakeBalanced(s: Shared, callers: nat, users: nat, pending: nat)
    requires Balanced(s, callers + 1, users) && Orderly(s, pending)
    ensures var (t, ok) := TakeForKill(s);
            Balanced(t, callers + 1, if ok then users + 1 else users) && Orderly(t, if ok then pending + 1 else pending)
  {
  }

  /** Where a thread must be to take a step inside a call. */
  predicate StartsAt(a: Action, from: Pc) {
    match a
    case BeginAttach(_) => from == Holding
    case DoAttach(_) => from == Attaching
    case BeginSend(_) => from == Holding
    case DoWrite(_, _) => from == Sending
    case AddEvents(_, _) => from == Adding
    case EndSend(_) => from == Sent
    case BeginKill(_) => from == Holding
    case DoKill(_) => from == Took
    case EndKill(_) => from == WatchKilled
    case DropClient(_) => from == Dropping || from == Holding
    case _ => false
  }

  predicate Unrefs(a: Action) {
    a.EndSend? || a.EndKill? || a.DropClient?
  }

  /** The books with the part of one thread at pc set apart. */
  predicate BooksWith(s: Shared, pc: Pc, callers: nat, users: nat, pending: nat) {
    Balanced(s, callers + ClientRefs(pc), users + WatchRefs(pc)) && Orderly(s, pending + AtTook(pc))
  }

  lemma UnrefEffect(s: Shared, a: Action, from: Pc, callers: nat, users: nat, pending: nat)
    requires Unrefs(a) && StartsAt(a, from) && BooksWith(s, from, callers, users, pending)
    ensures var (t, to) := Effect(s, a); BooksWith(t, to, callers, users, pending) && SameButRefs(s, t)
  {
    if a.DropClient? {
      UnrefClientBalanced(s, callers, users);
    } else {
      UnrefWatchBalanced(s, callers + 1, users);
    }
    OrderlyFrame(s, Effect(s, a).0, pending);
  }

  lemma KillEffect(s: Shared, callers: nat, users: nat)
    requires BooksWith(s, Took, callers, users, 0)
    ensures BooksWith(KillWatch(s), WatchKilled, callers, users, 0) && KillWatch(s).listed == s.listed
  {
    KillOrderly(s);
    KillBalanced(s, callers + 1, users + 1);
  }

  lemma AddInterestBalanced(s: Shared, posts: bool, callers: nat, users: nat)
    requires Balanced(s, callers, users) && !s.wFinal
    ensures Balanced(AddWriteInterest(s, posts), callers, users) && AddWriteInterest(s, posts).listed == s.listed
  {
    PostBalanced(s, ModifyOp, callers, users);
  }

  lemma InterestEffect(s: Shared, posts: bool, callers: nat, users: nat, pending: nat)
    requires BooksWith(s, Adding, callers, users, pending)
    ensures var t := AddWriteInterest(s, posts); BooksWith(t, Sent, callers, users, pending) && t.listed == s.listed
  {
    AddInterestOrderly(s, posts, pending);
    AddInterestBalanced(s, posts, callers + 1, users + 1);
  }

  lemma AttachEffect(s: Shared, callers: nat, users: nat, pending: nat)
    requires BooksWith(s, Attaching, callers, users, pending) && (s.wFinal ==> s.wKilled)
    ensures BooksWith(AttachWatch(s), Holding, callers, users, pending) && AttachWatch(s).listed == s.listed
  {
    AttachOrderly(s, pending);
    if !s.wFinal {
      AttachBalanced(s, callers + 1, users);
    }
  }

  /** A thread's step keeps the books: what it does to the counts is what its move does to the
      references it owns, and whoever has taken the watch kills it. */
  lemma EffectBalanced(s: Shared, a: Action, from: Pc, callers: nat, users: nat, pending: nat)
    requires StartsAt(a, from) && BooksWith(s, from, callers, users, pending)
    requires a.DoAttach? ==> (s.wFinal ==> s.wKilled)
    ensures var (t, to) := Effect(s, a); BooksWith(t, to, callers, users, pending) && t.listed == s.listed
  {
    if Unrefs(a) {
      UnrefEffect(s, a, from, callers, users, pending);
    } else if a.DoAttach? {
      AttachEffect(s, callers, users, pending);
    } else if a.DoKill? {
      KillEffect(s, callers, users);
    } else if a.AddEvents? {
      InterestEffect(s, a.posts, callers, users, pending);
    } else if a.BeginKill? {
      TakeBalanced(s, callers, users, pending);
    }
  }

  lemma {:induction false} FewerRefs(pcs: seq<Pc>, some: Pc -> nat, all: Pc -> nat)
    requires forall pc :: some(pc) <= all(pc)
    ensures SumRefs(pcs, some) <= SumRefs(pcs, all)
  {
    if pcs != [] {
      FewerRefs(pcs[..|pcs| - 1], some, all);
    }
  }

  /** A watch is finalised only when the kill has been carried out. */
  lemma FinalisedIsKilled(y: System)
    requires Inv(y) && y.s.wFinal
    ensures y.s.wKilled
  {
    FewerRefs(y.threads, AtTook, WatchRefs);
    assert KillsPending(y) <= UsersOfWatch(y) == 0;
  }

  lemma MoveInv(y: System, a: Action)
    requires Inv(y) && Enabled(y, a) && IsMove(a)
    ensures Inv(Step(y, a))
  {
    var t := Mover(a);
    var from := PcOf(y, t);
    var (s, to) := Effect(y.s, a);
    OwnRefs(y, t);
    MoveRefs(y, t, to, s);
    if y.s.wFinal {
      FinalisedIsKilled(y);
    }
    EffectBalanced(y.s, a, from, CallersOfClient(y) - ClientRefs(from), UsersOfWatch(y) - WatchRefs(from),
                   KillsPending(y) - AtTook(from));
  }

  lemma ExecOrderly(s: Shared, pending: nat)
    requires Orderly(s, pending) && s.ops != []
    ensures var listed := if s.ops[0] == ModifyOp then s.listed else s.ops[0] == AddOp;
            Orderly(s.(ops := s.ops[1..], listed := listed), pending)
  {
    assert s.ops == [s.ops[0]] + s.ops[1..];
    WillListPop(s.listed, s.ops);
  }

  lemma ExecInv(y: System)
    requires Inv(y) && Enabled(y, Exec)
    ensures Inv(Step(y, Exec))
  {
    var s := y.s;
    assert s.ops == [s.ops[0]] + s.ops[1..];
    ExecOrderly(s, KillsPending(y));
    if s.ops[0] == RemoveOp && s.listed {
      var t := s.(ops := s.ops[1..], listed := false);
      UnrefWatchBalanced(t, CallersOfClient(y), UsersOfWatch(y) + 1);
      OrderlyFrame(t, Step(y, Exec).s, KillsPending(y));
    }
  }

  lemma ExecQuitInv(y: System)
    requires Inv(y) && Enabled(y, ExecQuit)
    ensures Inv(Step(y, ExecQuit))
  {
    if y.s.listed {
      UnrefWatchBalanced(y.s.(listed := false), CallersOfClient(y), UsersOfWatch(y));
    }
  }

  lemma ReleaseInv(y: System)
    requires Inv(y) && Enabled(y, Release)
    ensures Inv(Step(y, Release))
  {
    UnrefWatchBalanced(y.s, CallersOfClient(y), UsersOfWatch(y) - 1);
    OrderlyFrame(y.s, Step(y, Release).s, KillsPending(y));
  }

  lemma ShareInv(y: System, t: Tid, to: nat)
    requires Inv(y) && Enabled(y, Share(t, to))
    ensures Inv(Step(y, Share(t, to)))
  {
    OwnRefs(y, t);
    SumMove(y.threads, to, Holding, ClientRefs);
    SumMove(y.threads, to, Holding, WatchRefs);
    SumMove(y.threads, to, Holding, AtTook);
  }

  lemma StepInv(y: System, a: Action)
    requires Inv(y) && Enabled(y, a)
    ensures Inv(Step(y, a))
  {
    if IsMove(a) {
      MoveInv(y, a);
    } else {
      match a {
        case Exec => ExecInv(y);
        case Release => ReleaseInv(y);
        case ExecQuit => ExecQuitInv(y);
        case Share(t, to) => ShareInv(y, t, to);
        case _ =>
      }
    }
  }

  // ----- What holds in every run -----

  ghost predicate Run(states: seq<System>, acts: seq<Action>) {
    && |states| == |acts| + 1
    && Init(states[0])
    && forall i :: 0 <= i < |acts| ==> Enabled(states[i], acts[i]) && states[i + 1] == Step(states[i], acts[i])
  }

  lemma RunInv(states: seq<System>, acts: seq<Action>)
    requires Run(states, acts)
    ensures forall i :: 0 <= i < |states| ==> Inv(states[i])
  {
    InitInv(states[0]);
    forall i | 0 <= i < |acts| && Inv(states[i]) ensures Inv(states[i + 1]) {
      StepInv(states[i], acts[i]);
    }
    forall n | 0 <= n < |states| ensures Inv(states[n]) {
      AlongRun(i => 0 <= i < |states| && Inv(states[i]), n);
    }
  }

  /** Whoever owns a reference to the watch, in a send or a kill, finds it not finalised; so do the
      loop while it needs the watch, and the owner of a reference to the client that. */
  lemma NobodyTouchesFinalised(states: seq<System>, acts: seq<Action>, t: Tid)
    requires Run(states, acts) && Known(states[|acts|], t)
    ensures var y := states[|acts|];
            && (WatchRefs(PcOf(y, t)) > 0 ==> !y.s.wFinal)
            && (ClientRefs(PcOf(y, t)) > 0 ==> !y.s.cFinal)
            && (!y.loop.Waiting? || y.s.listed || y.s.ops != [] ==> !y.s.wFinal)
  {
    RunInv(states, acts);
    OwnRefs(states[|acts|], t);
  }

  /** Nobody is about to kill a watch it has taken. */
  predicate NobodyAtTook(y: System) {
    (forall i :: 0 <= i < |y.threads| ==> y.threads[i] != Took) && y.loop != InCallback(Took)
  }

  lemma NothingPending(y: System)
    requires NobodyAtTook(y)
    ensures KillsPending(y) == 0
  {
    SumZero(y.threads, AtTook);
  }

  /** The watch is taken out of the client to be killed exactly when the client is killed, and
      once; a watch is killed only through its client, and is killed as soon as whoever took it has
      gone on; until the client is killed both live; and the client is finalised only after its
      watch. */
  lemma KilledOnceInOrder(states: seq<System>, acts: seq<Action>)
    requires Run(states, acts)
    ensures var y, s := states[|acts|], states[|acts|].s;
            && s.kills == (if s.cKilled then 1 else 0)
            && (s.wKilled ==> s.cKilled) && (s.cKilled && NobodyAtTook(y) ==> s.wKilled)
            && (!s.cKilled ==> s.hasWatch && !s.wFinal && !s.cFinal)
            && (s.cFinal ==> s.wFinal && !s.hasWatch)
            && s.cRef >= 0 && s.wRef >= 0
  {
    RunInv(states, acts);
    if NobodyAtTook(states[|acts|]) {
      NothingPending(states[|acts|]);
    }
  }

  /** Nothing goes on: nobody is in a call and the loop has run all that was queued. */
  predicate Quiet(y: System) {
    && y.loop == Waiting && y.s.ops == [] && !y.s.quitQueued
    && forall i :: 0 <= i < |y.threads| ==> y.threads[i] == Outside
  }

  lemma QuietAfterKill(y: System)
    requires Inv(y) && Quiet(y) && y.s.cKilled
    ensures !y.s.listed && y.s.wFinal && y.s.cFinal
  {
    NothingPending(y);
    SumZero(y.threads, ClientRefs);
    SumZero(y.threads, WatchRefs);
  }

  /** An open loop that has run its queue watches the watch exactly while it is attached and not
      killed; a loop that has run its quit does not. */
  lemma ListedWhileAttached(states: seq<System>, acts: seq<Action>)
    requires Run(states, acts) && states[|acts|].s.ops == []
    ensures var s := states[|acts|].s;
            && (!s.quited ==> (s.listed <==> s.sched)) && (s.sched ==> !s.wKilled)
            && (s.quited && !s.quitQueued ==> !s.listed)
  {
    RunInv(states, acts);
  }

  /** A kill really breaks the cycle: once the client is killed, nobody is in a call and the loop
      has run its queue, the kill has taken the watch off the loop and both objects have been
      finalised. */
  lemma KillBreaksTheCycle(states: seq<System>, acts: seq<Action>)
    requires Run(states, acts)
    ensures var y := states[|acts|];
            y.s.cKilled && Quiet(y) ==> !y.s.listed && y.s.wFinal && y.s.cFinal
  {
    RunInv(states, acts);
    if states[|acts|].s.cKilled && Quiet(states[|acts|]) {
      QuietAfterKill(states[|acts|]);
    }
  }

  // ----- A killed client goes away -----

  lemma UnrefFrame(y: System, a: Action)
    requires Inv(y) && Enabled(y, a) && Unrefs(a)
    ensures SameButRefs(y.s, Effect(y.s, a).0)
  {
    var t := Mover(a);
    OwnRefs(y, t);
    var from := PcOf(y, t);
    var callers, users := CallersOfClient(y) - ClientRefs(from), UsersOfWatch(y) - WatchRefs(from);
    UnrefEffect(y.s, a, from, callers, users, KillsPending(y));
  }

  /** Running what is queued only shortens the queue and changes what is listed. */
  lemma LoopFrame(y: System, a: Action)
    requires Inv(y) && Enabled(y, a) && (a.Exec? || a.Release? || a.ExecQuit?)
    ensures var s, t := y.s, Step(y, a).s;
            && SameButRefs(s.(ops := t.ops, listed := t.listed, quitQueued := t.quitQueued), t)
            && t.ops == (if a.Exec? then s.ops[1..] else s.ops)
            && t.quitQueued == (s.quitQueued && !a.ExecQuit?)
  {
    if a.Release? {
      UnrefWatchBalanced(y.s, CallersOfClient(y), UsersOfWatch(y) - 1);
    } else if a.ExecQuit? && y.s.listed {
      UnrefWatchBalanced(y.s.(listed := false), CallersOfClient(y), UsersOfWatch(y));
    } else if a.Exec? && y.s.ops[0] == RemoveOp && y.s.listed {
      UnrefWatchBalanced(y.s.(ops := y.s.ops[1..], listed := false), CallersOfClient(y), UsersOfWatch(y) + 1);
    }
  }

  /** How many steps a thread in a call still takes, and what it can still queue. */
  function Rank(pc: Pc): nat {
    match pc
    case Outside => 0
    case Holding => 1
    case Dropping => 1
    case Sent => 2
    case WatchKilled => 2
    case Sending => 3
    case Adding => 3
    case Attaching => 4
    case Took => 5
  }

  function LoopRank(l: LoopPc): nat {
    match l
    case Waiting => 0
    case Releasing => 1
    case Dispatching => 1
    case InCallback(pc) => 2 + Rank(pc)
  }

  function Work(y: System): nat {
    SumRefs(y.threads, Rank) + LoopRank(y.loop) + 2 * |y.s.ops| + if y.s.quitQueued then 1 else 0
  }

  /** The next step of a thread that is in a call and makes no new one. */
  function Finish(pc: Pc, t: Tid): Action
    requires pc != Outside
  {
    match pc
    case Holding => DropClient(t)
    case Dropping => DropClient(t)
    case Attaching => DoAttach(t)
    case Sending => DoWrite(t, false)
    case Adding => AddEvents(t, false)
    case Sent => EndSend(t)
    case Took => DoKill(t)
    case WatchKilled => EndKill(t)
  }

  function FinishLoop(y: System): Action
    requires y.loop != Waiting || y.s.ops != [] || y.s.quitQueued
  {
    match y.loop
    case InCallback(pc) => if pc == Outside then Return else Finish(pc, LoopThread)
    case Dispatching => EndDispatch
    case Releasing => Release
    case Waiting => if y.s.ops != [] then Exec else ExecQuit
  }

  /** Nobody enters anything: calls in progress are finished and queued operations run. */
  predicate Finishing(a: Action) {
    match a
    case DoAttach(_) => true
    case DoWrite(_, _) => true
    case AddEvents(_, _) => true
    case EndSend(_) => true
    case DoKill(_) => true
    case EndKill(_) => true
    case DropClient(_) => true
    case Return => true
    case EndDispatch => true
    case Exec => true
    case Release => true
    case ExecQuit => true
    case _ => false
  }

  /** Finishing a call is progress: a kill queues one operation and is counted for it. */
  lemma QueuesLittle(s: Shared)
    ensures |KillWatch(s).ops| <= |s.ops| + 1 && |AttachWatch(s).ops| <= |s.ops| + 1
    ensures KillWatch(s).quitQueued == AttachWatch(s).quitQueued == s.quitQueued
    ensures KillWatch(s).cKilled == AttachWatch(s).cKilled == s.cKilled
  {
  }

  predicate Progress(s: Shared, from: Pc, t: Shared, to: Pc) {
    && Rank(to) + 2 * |t.ops| < Rank(from) + 2 * |s.ops|
    && t.quitQueued == s.quitQueued && t.cKilled == s.cKilled
  }

  lemma FinishRank(s: Shared, t: Tid, from: Pc)
    requires from != Outside
    requires Unrefs(Finish(from, t)) ==> SameButRefs(s, Effect(s, Finish(from, t)).0)
    ensures var (s', to) := Effect(s, Finish(from, t)); Progress(s, from, s', to)
  {
    var a := Finish(from, t);
    if Unrefs(a) {
      assert Effect(s, a).1 == if a.EndSend? then Holding else if a.EndKill? then Dropping else Outside;
    } else {
      QueuesLittle(s);
      assert Effect(s, a) ==
        if from == Attaching then (AttachWatch(s), Holding)
        else if from == Took then (KillWatch(s), WatchKilled)
        else (s, Sent);
    }
  }

  lemma FinishProgress(y: System, t: Tid)
    requires Inv(y) && Known(y, t) && PcOf(y, t) != Outside
    ensures var a := Finish(PcOf(y, t), t);
            Finishing(a) && Enabled(y, a) && Work(Step(y, a)) < Work(y) && Step(y, a).s.cKilled == y.s.cKilled
  {
    var a := Finish(PcOf(y, t), t);
    if Unrefs(a) {
      UnrefFrame(y, a);
    }
    FinishRank(y.s, t, PcOf(y, t));
    if t.Thread? {
      SumMove(y.threads, t.i, Effect(y.s, a).1, Rank);
    }
  }

  lemma FinishLoopProgress(y: System)
    requires Inv(y) && (y.loop != Waiting || y.s.ops != [] || y.s.quitQueued)
    ensures var a := FinishLoop(y);
            Finishing(a) && Enabled(y, a) && Work(Step(y, a)) < Work(y) && Step(y, a).s.cKilled == y.s.cKilled
  {
    var a := FinishLoop(y);
    if y.loop.InCallback? && y.loop.pc != Outside {
      FinishProgress(y, LoopThread);
    } else if a.Exec? || a.Release? || a.ExecQuit? {
      LoopFrame(y, a);
    }
  }

  lemma NextFinish(y: System) returns (a: Action)
    requires Inv(y) && !Quiet(y)
    ensures Finishing(a) && Enabled(y, a) && Work(Step(y, a)) < Work(y) && Step(y, a).s.cKilled == y.s.cKilled
  {
    if i :| 0 <= i < |y.threads| && y.threads[i] != Outside {
      a := Finish(y.threads[i], Thread(i));
      FinishProgress(y, Thread(i));
    } else {
      a := FinishLoop(y);
      FinishLoopProgress(y);
    }
  }

  /** One more step of a run. */
  lemma Extend(states: seq<System>, acts: seq<Action>, a: Action) returns (states': seq<System>, acts': seq<Action>)
    requires Run(states, acts) && Enabled(states[|acts|], a)
    ensures Run(states', acts') && acts' == acts + [a] && states' == states + [Step(states[|acts|], a)]
  {
    states', acts' := states + [Step(states[|acts|], a)], acts + [a];
  }

  /** From every reachable state in which the client is killed, finishing the calls in progress and
      running what is queued, and nothing else, finalises both objects: nothing is leaked. */
  lemma {:induction false} KillCompletes(states: seq<System>, acts: seq<Action>)
    returns (states': seq<System>, acts': seq<Action>)
    requires Run(states, acts) && states[|acts|].s.cKilled
    ensures Run(states', acts') && acts <= acts' && |acts'| <= |acts| + Work(states[|acts|])
    ensures forall i :: |acts| <= i < |acts'| ==> Finishing(acts'[i])
    ensures states'[|acts'|].s.wFinal && states'[|acts'|].s.cFinal
    decreases Work(states[|acts|])
  {
    var y := states[|acts|];
    RunInv(states, acts);
    if Quiet(y) {
      states', acts' := states, acts;
      QuietAfterKill(y);
    } else {
      var a := NextFinish(y);
      states', acts' := Extend(states, acts, a);
      assert acts'[..|acts|] == acts;
      states', acts' := KillCompletes(states', acts');
    }
  }

  /** Nothing is undone from s to t. */
  predicate Lasting(s: Shared, t: Shared) {
    && (s.wFinal ==> t.wFinal && t.wRef == 0)
    && (s.cFinal ==> t.cFinal && t.cRef == 0)
    && (s.cKilled ==> t.cKilled && t.kills == s.kills)
  }

  lemma EffectLasts(s: Shared, a: Action, from: Pc, callers: nat, users: nat, pending: nat)
    requires StartsAt(a, from) && BooksWith(s, from, callers, users, pending)
    requires a.DoAttach? ==> (s.wFinal ==> s.wKilled)
    ensures Lasting(s, Effect(s, a).0)
  {
    EffectBalanced(s, a, from, callers, users, pending);
    if Unrefs(a) {
      UnrefEffect(s, a, from, callers, users, pending);
    }
  }

  lemma MoveLasts(y: System, a: Action)
    requires Inv(y) && Enabled(y, a) && IsMove(a)
    ensures Lasting(y.s, Step(y, a).s)
  {
    var t := Mover(a);
    var from := PcOf(y, t);
    OwnRefs(y, t);
    if y.s.wFinal {
      FinalisedIsKilled(y);
    }
    EffectLasts(y.s, a, from, CallersOfClient(y) - ClientRefs(from), UsersOfWatch(y) - WatchRefs(from),
                KillsPending(y) - AtTook(from));
  }

  lemma OtherLasts(y: System, a: Action)
    requires Inv(y) && Enabled(y, a) && !IsMove(a)
    ensures Lasting(y.s, Step(y, a).s)
  {
    if a.Exec? || a.Release? || a.ExecQuit? {
      LoopFrame(y, a);
      StepInv(y, a);
    } else if a.Share? {
      OwnRefs(y, a.t);
    }
  }

  /** Once finalised, always finalised: neither object is finalised twice. */
  lemma FinalisedOnce(states: seq<System>, acts: seq<Action>, a: Action)
    requires Run(states, acts) && Enabled(states[|acts|], a)
    ensures Lasting(states[|acts|].s, Step(states[|acts|], a).s)
  {
    RunInv(states, acts);
    if IsMove(a) {
      MoveLasts(states[|acts|], a);
    } else {
      OtherLasts(states[|acts|], a);
    }
  }

  // ----- Using the watch without owning a reference -----

  /** A thread that is attaching owns no reference to the watch it has looked up. The watch has been
      finalised by then exactly if the client has been killed and nobody else needs the watch; in
      particular the attacher is safe as long as nobody has killed the client. */
  lemma AttacherMeetsFinalised(states: seq<System>, acts: seq<Action>, t: Tid)
    requires Run(states, acts) && Known(states[|acts|], t) && PcOf(states[|acts|], t) == Attaching
    ensures var y := states[|acts|];
            y.s.wFinal <==> y.s.cKilled && UsersOfWatch(y) == 0 && y.s.ops == [] && !y.s.listed
  {
    RunInv(states, acts);
  }

  /** One thread creates the client and shares it with another; both hold it. */
  lemma TwoHolders() returns (states: seq<System>, acts: seq<Action>)
    ensures Run(states, acts) && |acts| == 1
    ensures states[1] == System(CREATED.(cRef := 3), [Holding, Holding], Waiting)
  {
    states, acts := [System(CREATED, [Holding, Outside], Waiting)], [];
    states, acts := Extend(states, acts, Share(Thread(0), 1));
  }

  /** A thread kills the client to its end, which is the end of a watch that nobody else uses. */
  lemma KillByOther(states: seq<System>, acts: seq<Action>) returns (states': seq<System>, acts': seq<Action>)
    requires Run(states, acts) && var y := states[|acts|];
             |y.threads| == 2 && y.threads[1] == Holding && y.s.wRef == 1 && y.s.cRef == 3 && y.s.hasWatch
             && !y.s.cKilled && !y.s.wKilled && !y.s.sched && !y.s.wFinal && !y.s.cFinal
    ensures Run(states', acts') && acts' == acts + [BeginKill(Thread(1)), DoKill(Thread(1)), EndKill(Thread(1))]
    ensures states <= states' && states'[|acts'|].s.wFinal
    ensures var y := states'[|acts'|];
            y.threads == states[|acts|].threads[1 := Dropping] && y.s.cRef == 2 && !y.s.hasWatch && !y.s.cFinal
  {
    states', acts' := Extend(states, acts, BeginKill(Thread(1)));
    states', acts' := Extend(states', acts', DoKill(Thread(1)));
    states', acts' := Extend(states', acts', EndKill(Thread(1)));
  }

  /** A run in which the watch is finalised between an attacher's look at the client and its use of
      the watch. */
  lemma KilledWhileAttaching() returns (states: seq<System>, acts: seq<Action>)
    ensures Run(states, acts)
    ensures states[|acts|].threads == [Attaching, Dropping] && states[|acts|].s.wFinal
  {
    states, acts := TwoHolders();
    states, acts := Extend(states, acts, BeginAttach(Thread(0)));
    states, acts := KillByOther(states, acts);
  }

  lemma TwoSenders() returns (states: seq<System>, acts: seq<Action>)
    ensures Run(states, acts)
    ensures states[|acts|] == System(CREATED.(cRef := 3, wRef := 3), [Sent, Sending], Waiting)
  {
    states, acts := TwoHolders();
    states, acts := Extend(states, acts, BeginSend(Thread(0)));
    states, acts := Extend(states, acts, BeginSend(Thread(1)));
    states, acts := Extend(states, acts, DoWrite(Thread(0), false));
  }

  /** Two senders: the first gives up its reference to the watch, which is not the last, and before
      it has read the count of the watch the second gives up its own and kills the client. */
  lemma SenderReadsTooLate() returns (states: seq<System>, acts: seq<Action>, k: nat)
    ensures Run(states, acts) && k < |acts| && acts[k] == EndSend(Thread(0)) && !states[k + 1].s.wFinal
    ensures forall i :: k < i < |acts| ==> Mover(acts[i]) == Thread(1)
    ensures states[|acts|].s.wFinal
  {
    states, acts := TwoSenders();
    k := |acts|;
    states, acts := Extend(states, acts, EndSend(Thread(0)));
    assert states[k + 1] == System(CREATED.(cRef := 3, wRef := 2), [Holding, Sending], Waiting);
    states, acts := Extend(states, acts, DoWrite(Thread(1), false));
    states, acts := Extend(states, acts, EndSend(Thread(1)));
    states, acts := KillByOther(states, acts);
  }

  /** The same for the client: a holder that drops a reference which is not the last, and another
      that then kills the client and drops the last. */
  lemma HolderReadsTooLate() returns (states: seq<System>, acts: seq<Action>, k: nat)
    ensures Run(states, acts) && k < |acts| && acts[k] == DropClient(Thread(0)) && !states[k + 1].s.cFinal
    ensures forall i :: k < i < |acts| ==> Mover(acts[i]) == Thread(1)
    ensures states[|acts|].s.cFinal
  {
    states, acts := TwoHolders();
    states, acts := KillByOther(states, acts);
    k := |acts|;
    states, acts := Extend(states, acts, DropClient(Thread(0)));
    states, acts := Extend(states, acts, DropClient(Thread(1)));
  }

  // ----- A loop that has quit -----

  /** Attaching now records a scheduler whose loop refuses the event. */
  predicate Refuses(s: Shared) {
    s.quited && !s.sched && !s.wKilled
  }

  /** The scheduler is set although no loop has the watch. */
  predicate Stranded(s: Shared) {
    s.sched && !s.attached
  }

  lemma KillStranded(s: Shared)
    requires s.wKilled ==> !s.sched
    ensures !Stranded(KillWatch(s)) && KillWatch(s).wKilled
  {
  }

  lemma AttachStranded(s: Shared)
    requires (s.wKilled ==> !s.sched) && (s.attached ==> s.sched || s.wKilled)
    ensures var t := AttachWatch(s);
            t.wKilled == s.wKilled && (Stranded(t) <==> !t.wKilled && (Stranded(s) || Refuses(s)))
  {
  }

  lemma EffectStranded(s: Shared, a: Action)
    requires IsMove(a) && !Unrefs(a) && (s.wKilled ==> !s.sched) && (s.attached ==> s.sched || s.wKilled)
    ensures var t := Effect(s, a).0;
            && (s.wKilled ==> t.wKilled)
            && (Stranded(t) <==> !t.wKilled && (Stranded(s) || (a.DoAttach? && Refuses(s))))
  {
    if a.DoKill? {
      KillStranded(s);
    } else if a.DoAttach? {
      AttachStranded(s);
    }
  }

  lemma MoveStranded(y: System, a: Action)
    requires Inv(y) && Enabled(y, a) && IsMove(a)
    ensures var s, t := y.s, Effect(y.s, a).0;
            && (Stranded(t) <==> !t.wKilled && (Stranded(s) || (a.DoAttach? && Refuses(s))))
            && (s.wKilled ==> t.wKilled)
  {
    if Unrefs(a) {
      UnrefFrame(y, a);
    } else {
      EffectStranded(y.s, a);
    }
  }

  lemma StepStranded(y: System, a: Action)
    requires Inv(y) && Enabled(y, a)
    ensures var s, t := y.s, Step(y, a).s;
            && (Stranded(t) <==> !t.wKilled && (Stranded(s) || (a.DoAttach? && Refuses(s))))
            && (s.wKilled ==> t.wKilled)
  {
    if IsMove(a) {
      MoveStranded(y, a);
    } else if a.Exec? || a.Release? || a.ExecQuit? {
      LoopFrame(y, a);
    }
  }

  /** A run in which the watch is attached after the loop has quit and is then taken to be killed. */
  lemma AttachedAfterQuit() returns (states: seq<System>, acts: seq<Action>)
    ensures Run(states, acts)
    ensures var y := states[|acts|]; y.threads == [Took] && Stranded(y.s)
  {
    var t := Thread(0);
    states, acts := [System(CREATED, [Holding], Waiting)], [];
    states, acts := Extend(states, acts, DoQuit);
    states, acts := Extend(states, acts, BeginAttach(t));
    states, acts := Extend(states, acts, DoAttach(t));
    states, acts := Extend(states, acts, BeginKill(t));
  }

  /** The kill of a watch asks the loop it was given to, and finds that the watch has none (the
      BUG_ON of h6_ev_loop_remove), exactly when some attachment came after that loop had quit. */
  lemma {:induction false} KillMissesItsLoop(states: seq<System>, acts: seq<Action>)
    requires Run(states, acts)
    ensures var s := states[|acts|].s;
            Stranded(s) <==>
            !s.wKilled && exists i :: 0 <= i < |acts| && acts[i].DoAttach? && Refuses(states[i].s)
  {
    if acts != [] {
      var n := |acts| - 1;
      assert Run(states[..|acts|], acts[..n]);
      KillMissesItsLoop(states[..|acts|], acts[..n]);
      RunInv(states, acts);
      StepStranded(states[n], acts[n]);
      assert forall i :: 0 <= i < n ==> acts[..n][i] == acts[i] && states[..|acts|][i] == states[i];
    }
  }
}
