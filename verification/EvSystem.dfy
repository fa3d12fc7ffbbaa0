/** Arbitrary interleavings of requesting threads and the loop thread over one loop, and the
    reference behaviour that applies each request at once. */
module EvSystem {
  import opened EvModel
  import opened Base
  import LinkedList

  /** The loop thread: waiting in libev, holding the lock between operations, or past the unlock
      that follows an operation and about to drop that operation's reference. */
  datatype Pc<E> = Idle | Replaying | Releasing(op: Op<E>)

  /** held counts, per event, the references owned by callers. */
  datatype System<E> = System(l: Loop<E>, held: map<E, nat>, pc: Pc<E>)

  datatype Action<E> =
    | New(e: E, events: Mask) | Take(e: E) | Drop(e: E)
    | DoAttach(e: E) | DoRemove(e: E) | DoAdd(e: E, events: Mask) | DoDel(e: E, events: Mask)
    | DoAddSync(e: E, events: Mask) | DoDelSync(e: E, events: Mask) | DoQuit
    | Wake | Pop | Release

  function Held<E>(s: System<E>, e: E): nat {
    if e in s.held then s.held[e] else 0
  }

  ghost function Count<T>(s: seq<T>, x: T): nat {
    multiset(s)[x]
  }

  /** The reference owned by an operation that has run but has not been released. */
  ghost function Running<E>(pc: Pc<E>, e: E): nat {
    if pc.Releasing? && !pc.op.QuitOp? && pc.op.event == e then 1 else 0
  }

  /** When an action can happen: callers pass events they can name, attach an event once, remove
      an attached one, drop only references they own; the sync forms run on the loop thread
      outside a replay. */
  predicate Enabled<E>(s: System<E>, a: Action<E>) {
    match a
    case New(e, _) => e !in s.l.evs
    case Take(e) => e in s.l.evs
    case Drop(e) => e in s.l.evs && Held(s, e) > 0
    case DoAttach(e) => e in s.l.evs && !s.l.evs[e].attached
    case DoRemove(e) => e in s.l.evs && s.l.evs[e].attached
    case DoAdd(e, _) => e in s.l.evs
    case DoDel(e, _) => e in s.l.evs
    case DoAddSync(e, _) => e in s.l.evs && s.l.evs[e].attached && s.pc == Idle
    case DoDelSync(e, _) => e in s.l.evs && s.l.evs[e].attached && s.pc == Idle
    case DoQuit => true
    case Wake => s.pc == Idle && s.l.pipe > 0
    case Pop => s.pc == Replaying
    case Release => s.pc.Releasing?
  }

  /** What the accesses of the loop thread up to and including a release rely on; every reachable
      state has it. */
  ghost predicate Safe<E>(s: System<E>) {
    && Tidy(s.l)
    && (forall i :: 0 <= i < |s.l.ops| ==> s.l.ops[i].QuitOp? || s.l.ops[i].event in s.l.evs)
    && (s.pc.Releasing? ==> s.pc.op.QuitOp? || s.pc.op.event in s.l.evs)
  }

  ghost function Step<E>(s: System<E>, a: Action<E>): System<E>
    requires Enabled(s, a) && Safe(s)
  {
    match a
    case New(e, events) =>
      System(s.l.(evs := s.l.evs[e := Ev(1, events, false, false)]), s.held[e := 1], s.pc)
    case Take(e) => s.(l := Ref(s.l, e), held := s.held[e := Held(s, e) + 1])
    case Drop(e) => s.(l := Unref(s.l, e), held := s.held[e := Held(s, e) - 1])
    case DoAttach(e) => s.(l := Attach(s.l, e))
    case DoRemove(e) => s.(l := RequestRemove(s.l, e))
    case DoAdd(e, events) => s.(l := AddEvents(s.l, e, events))
    case DoDel(e, events) => s.(l := RemoveEvents(s.l, e, events))
    case DoAddSync(e, events) => s.(l := AddEventsSync(s.l, e, events))
    case DoDelSync(e, events) => s.(l := RemoveEventsSync(s.l, e, events))
    case DoQuit => s.(l := Quit(s.l))
    case Wake => s.(l := WokenUp(s.l), pc := Replaying)
    case Pop =>
      if s.l.ops == [] then s.(pc := Idle)
      else s.(l := PopExec(s.l), pc := Releasing(s.l.ops[0]))
    case Release =>
      s.(l := if s.pc.op.QuitOp? then s.l else Unref(s.l, s.pc.op.event), pc := Replaying)
  }

  // ----- The reference behaviour -----

  /** masks: what each event wants; loop: the events in the loop and what they are watched for. */
  datatype Immediate<E> = Immediate(masks: map<E, Mask>, loop: map<E, Mask>, quited: bool)

  function Want<E>(m: Immediate<E>, e: E): Mask {
    if e in m.masks then m.masks[e] else {}
  }

  function SetWant<E>(m: Immediate<E>, e: E, w: Mask): Immediate<E> {
    m.(masks := m.masks[e := w], loop := if e in m.loop then m.loop[e := w] else m.loop)
  }

  /** Each request takes effect at once; the loop thread's own steps change nothing. */
  function Apply<E>(m: Immediate<E>, a: Action<E>): Immediate<E> {
    match a
    case New(e, events) => m.(masks := m.masks[e := events])
    case DoAttach(e) => if m.quited then m else m.(loop := m.loop[e := Want(m, e)])
    case DoRemove(e) => if m.quited then m else m.(loop := m.loop - {e})
    case DoAdd(e, events) => SetWant(m, e, Want(m, e) + events)
    case DoAddSync(e, events) => SetWant(m, e, Want(m, e) + events)
    case DoDel(e, events) => SetWant(m, e, Want(m, e) - events)
    case DoDelSync(e, events) => SetWant(m, e, Want(m, e) - events)
    case DoQuit => m.(loop := map[], quited := true)
    case _ => m
  }

  function ApplyAll<E>(acts: seq<Action<E>>): Immediate<E> {
    if acts == [] then Immediate(map[], map[], false)
    else Apply(ApplyAll(acts[..|acts| - 1]), acts[|acts| - 1])
  }

  function InLoop<E>(l: Loop<E>): set<E> {
    set e | e in l.evList
  }

  function SettleOne<E>(before: set<E>, op: Op<E>): set<E> {
    match op
    case AddOp(e) => before + {e}
    case RemoveOp(e) => before - {e}
    case ModifyOp(_) => before
    case QuitOp => {}
  }

  /** The events in the loop once the queued operations have run. */
  function Settled<E>(base: set<E>, ops: seq<Op<E>>): set<E> {
    if ops == [] then base else SettleOne(Settled(base, ops[..|ops| - 1]), ops[|ops| - 1])
  }

  // ----- Invariants -----

  /** What one event looks like from everywhere that refers to it: its fields, how often callers,
      queued operations, the operation being released and ev_list name it, and its watcher. */
  datatype Account = Account(
    live: bool, ev: Ev, held: nat, adds: nat, removals: nat, changes: nat, running: nat, listed: nat,
    started: bool, watched: Mask, quited: bool)

  const FREED := Ev(0, {}, false, false)

  ghost function AccountOf<E>(s: System<E>, e: E): Account {
    Account(
      e in s.l.evs, if e in s.l.evs then s.l.evs[e] else FREED, Held(s, e),
      Count(s.l.ops, AddOp(e)), Count(s.l.ops, RemoveOp(e)), Count(s.l.ops, ModifyOp(e)),
      Running(s.pc, e), Count(s.l.evList, e),
      e in s.l.watched, WatchedMask(s.l, e), s.l.quited)
  }

  /** A live event's count is the sum of the references owned by callers, by queued operations,
      by the operation being released and by ev_list, and it is positive; the event is put in
      ev_list at most once in its life; it is watched only in the loop, and for what it wants,
      unless an operation that will say so is queued. A freed event is named nowhere. */
  predicate Balanced(a: Account) {
    if a.live then
      && a.ev.refs == a.held + a.adds + a.removals + a.changes + a.running + a.listed
      && a.ev.refs > 0
      && a.listed + a.adds <= 1
      && (a.listed + a.adds == 1 ==> a.ev.attached)
      && (a.ev.inLoop <==> a.listed == 1)
      && (a.started ==> a.ev.inLoop && a.watched != {})
      && (a.ev.inLoop ==> a.watched == a.ev.mask || a.changes > 0 || a.quited)
    else
      a.held == a.adds == a.removals == a.changes == a.running == a.listed == 0 && !a.started
  }

  ghost predicate Books<E>(s: System<E>, e: E) {
    Balanced(AccountOf(s, e))
  }

  /** The reference behaviour knows the same wish for e, and watches e for it if at all. */
  ghost predicate Agrees<E>(s: System<E>, m: Immediate<E>, e: E) {
    && (e in s.l.evs ==> Want(m, e) == s.l.evs[e].mask)
    && (e in m.loop ==> m.loop[e] == Want(m, e))
  }

  /** Once the queue has run, the loop will hold the events of the reference loop. */
  ghost predicate SameLoop<E>(s: System<E>, m: Immediate<E>) {
    && m.quited == s.l.quited
    && (m.quited ==> m.loop.Keys == {})
    && m.loop.Keys == Settled(InLoop(s.l), s.l.ops)
  }

  /** No lost wake-up. */
  ghost predicate Awake<E>(s: System<E>) {
    && s.l.pipe == (if s.l.requestPending then 1 else 0)
    && (s.l.ops != [] ==> s.l.requestPending || s.pc != Idle)
  }

  /** Everything that something in the system refers to. */
  ghost function Named<E>(s: System<E>): set<E> {
    s.l.evs.Keys + s.held.Keys + s.l.watched.Keys + InLoop(s.l) + OpEvents(s.l.ops)
    + if s.pc.Releasing? && !s.pc.op.QuitOp? then {s.pc.op.event} else {}
  }

  ghost function OpEvents<E>(ops: seq<Op<E>>): set<E> {
    set op | op in ops && !op.QuitOp? :: op.event
  }

  lemma UnnamedBooks<E>(s: System<E>, e: E)
    requires e !in Named(s)
    ensures Books(s, e)
  {
    assert AddOp(e) !in s.l.ops && RemoveOp(e) !in s.l.ops && ModifyOp(e) !in s.l.ops by {
      assert AddOp(e).event == RemoveOp(e).event == ModifyOp(e).event == e;
    }
  }

  ghost predicate AllBooks<E>(s: System<E>) {
    forall e :: e in Named(s) ==> Books(s, e)
  }

  lemma BooksOf<E>(s: System<E>, e: E)
    requires AllBooks(s)
    ensures Books(s, e)
  {
    if e !in Named(s) {
      UnnamedBooks(s, e);
    }
  }

  ghost predicate AllAgree<E>(s: System<E>, m: Immediate<E>) {
    forall e :: e in s.l.evs.Keys + m.loop.Keys ==> Agrees(s, m, e)
  }

  ghost predicate Inv<E>(s: System<E>, m: Immediate<E>) {
    && AllBooks(s)
    && AllAgree(s, m)
    && Awake(s)
    && SameLoop(s, m)
  }

  lemma DistinctIfCounted<E>(s: seq<E>)
    requires forall e :: e in s ==> multiset(s)[e] <= 1
    ensures Distinct(s)
  {
    forall i, j | 0 <= i < j < |s| ensures s[i] != s[j] {
      assert s == s[..j] + s[j..];
      assert s[..j][i] in s[..j] && s[j..][0] in s[j..];
      assert multiset(s)[s[i]] == multiset(s[..j])[s[i]] + multiset(s[j..])[s[i]];
    }
  }

  lemma InvIsSafe<E>(s: System<E>)
    requires forall e :: Books(s, e)
    ensures Safe(s)
  {
    forall e | e in s.l.evList ensures multiset(s.l.evList)[e] <= 1 && e in s.l.evs {
      assert Books(s, e);
    }
    DistinctIfCounted(s.l.evList);
    forall i | 0 <= i < |s.l.ops| && !s.l.ops[i].QuitOp? ensures s.l.ops[i].event in s.l.evs {
      assert s.l.ops[i] in multiset(s.l.ops);
      BooksOf(s, s.l.ops[i].event);
    }
    if s.pc.Releasing? && !s.pc.op.QuitOp? {
      BooksOf(s, s.pc.op.event);
    }
  }

  lemma {:induction false} SettledPop<E>(base: set<E>, ops: seq<Op<E>>)
    requires ops != []
    ensures Settled(base, ops) == Settled(SettleOne(base, ops[0]), ops[1..])
  {
    if |ops| == 1 {
      assert ops[..0] == [] && ops[1..] == [];
    } else {
      SettledPop(base, ops[..|ops| - 1]);
      assert ops[..|ops| - 1][1..] == ops[1..][..|ops| - 2];
    }
  }

  lemma SettledPost<E>(base: set<E>, ops: seq<Op<E>>, op: Op<E>)
    ensures Settled(base, ops + [op]) == SettleOne(Settled(base, ops), op)
  {
    assert (ops + [op])[..|ops|] == ops;
  }

  lemma {:induction false} SettledFrom<E>(base: set<E>, ops: seq<Op<E>>, e: E)
    requires e in Settled(base, ops)
    ensures e in base || AddOp(e) in ops
  {
    if ops != [] {
      var n := |ops| - 1;
      if ops[n] != AddOp(e) {
        SettledFrom(base, ops[..n], e);
      }
    }
  }

  // ----- Requests keep the books -----

  /** A request other than the loop's own steps. */
  predicate IsRequest<E>(a: Action<E>) {
    !(a.Wake? || a.Pop? || a.Release?)
  }

  lemma CountPost<T>(s: seq<T>, x: T, y: T)
    ensures Count(s + [x], y) == Count(s, y) + if x == y then 1 else 0
  {
  }

  lemma CountPop<T>(s: seq<T>, y: T)
    requires s != []
    ensures Count(s, y) == Count(s[1..], y) + if s[0] == y then 1 else 0
  {
    assert s == [s[0]] + s[1..];
  }

  /** Posting an operation changes the account of the event it names, and no other. */
  lemma PostAccount<E>(s: System<E>, l: Loop<E>, op: Op<E>, e: E)
    requires !op.QuitOp? ==> op.event in l.evs
    ensures var a := AccountOf(s.(l := l), e);
            AccountOf(s.(l := Post(l, op)), e) ==
            if op.QuitOp? || op.event != e then a
            else a.(ev := a.ev.(refs := a.ev.refs + 1),
                    adds := a.adds + if op.AddOp? then 1 else 0,
                    removals := a.removals + if op.RemoveOp? then 1 else 0,
                    changes := a.changes + if op.ModifyOp? then 1 else 0)
  {
    CountPost(l.ops, op, AddOp(e));
    CountPost(l.ops, op, RemoveOp(e));
    CountPost(l.ops, op, ModifyOp(e));
  }

  /** Updating one event's fields changes those fields of its account. */
  lemma FieldsAccount<E>(s: System<E>, x: E, ev: Ev, e: E)
    ensures AccountOf(s.(l := s.l.(evs := s.l.evs[x := ev])), e) ==
            if e == x then AccountOf(s, e).(live := true, ev := ev) else AccountOf(s, e)
  {
  }

  lemma HeldAccount<E>(s: System<E>, x: E, n: nat, e: E)
    ensures AccountOf(s.(held := s.held[x := n]), e) ==
            if e == x then AccountOf(s, e).(held := n) else AccountOf(s, e)
  {
  }

  /** An account after its event has lost a reference. */
  function LessOne(a: Account): Account {
    if a.ev.refs == 1 then a.(live := false, ev := FREED) else a.(ev := a.ev.(refs := a.ev.refs - 1))
  }

  lemma UnrefAccount<E>(s: System<E>, x: E, e: E)
    requires x in s.l.evs
    ensures AccountOf(s.(l := Unref(s.l, x)), e) == if e == x then LessOne(AccountOf(s, e)) else AccountOf(s, e)
  {
  }

  lemma NewBooks<E>(s: System<E>, x: E, events: Mask, e: E)
    requires x !in s.l.evs && Books(s, e) && Safe(s)
    ensures Books(Step(s, New(x, events)), e)
  {
    FieldsAccount(s, x, Ev(1, events, false, false), e);
    HeldAccount(s.(l := s.l.(evs := s.l.evs[x := Ev(1, events, false, false)])), x, 1, e);
  }

  lemma TakeBooks<E>(s: System<E>, x: E, e: E)
    requires x in s.l.evs && Books(s, e) && Safe(s)
    ensures Books(Step(s, Take(x)), e)
  {
    FieldsAccount(s, x, s.l.evs[x].(refs := s.l.evs[x].refs + 1), e);
    HeldAccount(s.(l := Ref(s.l, x)), x, Held(s, x) + 1, e);
  }

  lemma LessHeld(a: Account)
    requires Balanced(a) && a.live && a.held > 0
    ensures Balanced(LessOne(a).(held := a.held - 1))
  {
  }

  lemma DropBooks<E>(s: System<E>, x: E, e: E)
    requires x in s.l.evs && Held(s, x) > 0 && Books(s, e)
    ensures Books(s.(l := Unref(s.l, x), held := s.held[x := Held(s, x) - 1]), e)
  {
    UnrefAccount(s, x, e);
    HeldAccount(s.(l := Unref(s.l, x)), x, Held(s, x) - 1, e);
    var a, t := AccountOf(s, e), s.(l := Unref(s.l, x), held := s.held[x := Held(s, x) - 1]);
    assert AccountOf(t, e) == if e == x then LessOne(a).(held := a.held - 1) else a;
    if e == x {
      LessHeld(a);
    }
  }

  lemma AttachBooks<E>(s: System<E>, x: E, e: E)
    requires Safe(s) && Enabled(s, DoAttach(x)) && Books(s, e)
    ensures Books(Step(s, DoAttach(x)), e)
  {
    FieldsAccount(s, x, s.l.evs[x].(attached := true), e);
    PostAccount(s, s.l.(evs := s.l.evs[x := s.l.evs[x].(attached := true)]), AddOp(x), e);
  }

  lemma RemoveBooks<E>(s: System<E>, x: E, e: E)
    requires Safe(s) && Enabled(s, DoRemove(x)) && Books(s, e)
    ensures Books(Step(s, DoRemove(x)), e)
  {
    PostAccount(s, s.l, RemoveOp(x), e);
  }

  lemma QuitBooks<E>(s: System<E>, e: E)
    requires Safe(s) && Books(s, e)
    ensures Books(Step(s, DoQuit), e)
  {
    PostAccount(s, s.l.(quited := true), QuitOp, e);
  }

  /** A mask change with its enqueue: the event may be watched for the wrong mask now, but the
      operation that will put it right is in the queue. */
  lemma MaskBooks<E>(s: System<E>, x: E, w: Mask, e: E)
    requires x in s.l.evs && Books(s, e)
    ensures Books(s.(l := ChangeMask(s.l, x, w)), e)
  {
    FieldsAccount(s, x, s.l.evs[x].(mask := w), e);
    PostAccount(s, SetMask(s.l, x, w), ModifyOp(x), e);
  }

  // ----- The loop thread keeps the books -----

  /** An account after an operation on its event has been popped and is about to be run. */
  function Popped<E>(a: Account, op: Op<E>): Account
    requires op.AddOp? ==> a.adds > 0
    requires op.RemoveOp? ==> a.removals > 0
    requires op.ModifyOp? ==> a.changes > 0
  {
    match op
    case AddOp(_) => a.(adds := a.adds - 1, running := 1)
    case RemoveOp(_) => a.(removals := a.removals - 1, running := 1)
    case ModifyOp(_) => a.(changes := a.changes - 1, running := 1)
    case QuitOp => a
  }

  /** The state between the pop and the call. */
  ghost function AfterPop<E>(s: System<E>): System<E>
    requires s.l.ops != []
  {
    s.(l := s.l.(ops := s.l.ops[1..]), pc := Releasing(s.l.ops[0]))
  }

  lemma PopAccount<E>(s: System<E>, e: E)
    requires s.pc == Replaying && s.l.ops != []
    ensures var op := s.l.ops[0];
            AccountOf(AfterPop(s), e) ==
            if op.QuitOp? || op.event != e then AccountOf(s, e) else Popped(AccountOf(s, e), op)
  {
    CountPop(s.l.ops, AddOp(e));
    CountPop(s.l.ops, RemoveOp(e));
    CountPop(s.l.ops, ModifyOp(e));
  }

  lemma CountCons<T>(x: T, s: seq<T>, y: T)
    ensures Count([x] + s, y) == Count(s, y) + if x == y then 1 else 0
  {
  }

  lemma {:induction false} CountRemoveFirst<T>(s: seq<T>, x: T, y: T)
    requires x in s
    ensures Count(LinkedList.RemoveFirst(s, x), y) == Count(s, y) - if x == y then 1 else 0
  {
    CountPop(s, y);
    if s[0] != x {
      CountRemoveFirst(s[1..], x, y);
      CountCons(s[0], LinkedList.RemoveFirst(s[1..], x), y);
    }
  }

  lemma SyncAddAccount<E>(s: System<E>, x: E, e: E)
    requires x in s.l.evs
    ensures var a := AccountOf(s, e);
            AccountOf(s.(l := SyncAdd(s.l, x)), e) ==
            if e != x then a
            else if a.ev.mask == {} then a.(ev := a.ev.(inLoop := true))
            else a.(ev := a.ev.(inLoop := true), started := true, watched := a.ev.mask)
  {
  }

  lemma SyncRemoveAccount<E>(s: System<E>, x: E, e: E)
    requires x in s.l.evs
    ensures var a := AccountOf(s, e);
            AccountOf(s.(l := SyncRemove(s.l, x)), e) ==
            if e == x then a.(ev := a.ev.(inLoop := false), started := false, watched := {}) else a
  {
  }

  lemma SyncModifiedAccount<E>(s: System<E>, x: E, e: E)
    requires x in s.l.evs
    ensures var a := AccountOf(s, e);
            AccountOf(s.(l := SyncModified(s.l, x)), e) ==
            if e != x || !a.ev.inLoop then a else a.(started := a.ev.mask != {}, watched := a.ev.mask)
  {
  }

  lemma SyncBooks<E>(s: System<E>, x: E, w: Mask, e: E)
    requires x in s.l.evs && Books(s, e)
    ensures Books(s.(l := SyncModified(SetMask(s.l, x, w), x)), e)
  {
    FieldsAccount(s, x, s.l.evs[x].(mask := w), e);
    SyncModifiedAccount(s.(l := SetMask(s.l, x, w)), x, e);
  }

  lemma EvListAccount<E>(s: System<E>, list: seq<E>, e: E)
    ensures AccountOf(s.(l := s.l.(evList := list)), e) == AccountOf(s, e).(listed := Count(list, e))
  {
  }

  /** An account after the add operation on its event has been popped and run. */
  function Added(a: Account): Account
    requires a.adds > 0
  {
    a.(ev := a.ev.(refs := a.ev.refs + 1, inLoop := true), adds := a.adds - 1, running := 1,
       listed := a.listed + 1, started := a.started || a.ev.mask != {},
       watched := if a.ev.mask == {} then a.watched else a.ev.mask)
  }

  lemma AddedBalanced(a: Account)
    requires Balanced(a) && a.live && a.adds > 0 && a.running == 0 && (!a.started ==> a.watched == {})
    ensures Balanced(Added(a))
  {
  }

  lemma AddAccount<E>(s: System<E>, x: E, e: E)
    requires x in s.l.evs
    ensures var a := AccountOf(s, e);
            AccountOf(s.(l := SyncAdd(Ref(s.l.(evList := [x] + s.l.evList), x), x)), e) ==
            if e != x then a
            else a.(ev := a.ev.(refs := a.ev.refs + 1, inLoop := true), listed := a.listed + 1,
                    started := a.started || a.ev.mask != {},
                    watched := if a.ev.mask == {} then a.watched else a.ev.mask)
  {
    CountCons(x, s.l.evList, e);
    EvListAccount(s, [x] + s.l.evList, e);
    var t := s.(l := s.l.(evList := [x] + s.l.evList));
    FieldsAccount(t, x, t.l.evs[x].(refs := t.l.evs[x].refs + 1), e);
    SyncAddAccount(t.(l := Ref(t.l, x)), x, e);
  }

  lemma AddBooks<E>(s: System<E>, e: E)
    requires s.pc == Replaying && s.l.ops != [] && s.l.ops[0].AddOp? && s.l.ops[0].event in s.l.evs
    requires Books(s, e)
    ensures var t, x := AfterPop(s), s.l.ops[0].event;
            Books(t.(l := SyncAdd(Ref(t.l.(evList := [x] + t.l.evList), x), x)), e)
  {
    var x, t, a := s.l.ops[0].event, AfterPop(s), AccountOf(s, e);
    PopAccount(s, e);
    AddAccount(t, x, e);
    if e == x {
      CountPop(s.l.ops, AddOp(e));
      AddedBalanced(a);
    }
  }

  /** An account after its event has been taken off ev_list and has lost that reference. */
  function Delisted(a: Account): Account
    requires a.listed > 0
  {
    LessOne(a.(ev := a.ev.(inLoop := false), listed := a.listed - 1, started := false, watched := {}))
  }

  lemma DelistedBalanced(a: Account)
    requires Balanced(a) && a.listed > 0
    ensures Balanced(Delisted(a))
  {
  }

  /** Removing an event that is in ev_list. */
  lemma DelistBooks<E>(s: System<E>, x: E, e: E)
    requires x in s.l.evs && x in s.l.evList && Books(s, e)
    ensures Books(s.(l := Unref(SyncRemove(s.l.(evList := LinkedList.RemoveFirst(s.l.evList, x)), x), x)), e)
  {
    var t := s.(l := s.l.(evList := LinkedList.RemoveFirst(s.l.evList, x)));
    CountRemoveFirst(s.l.evList, x, e);
    EvListAccount(s, t.l.evList, e);
    SyncRemoveAccount(t, x, e);
    UnrefAccount(t.(l := SyncRemove(t.l, x)), x, e);
    var a := AccountOf(s, e);
    assert AccountOf(s.(l := Unref(SyncRemove(t.l, x), x)), e) == if e == x then Delisted(a) else a;
    if e == x {
      DelistedBalanced(a);
    }
  }

  lemma RemovalBooks<E>(s: System<E>, e: E)
    requires s.pc == Replaying && s.l.ops != [] && s.l.ops[0].RemoveOp? && s.l.ops[0].event in s.l.evs
    requires Books(s, e)
    ensures var t, x := AfterPop(s), s.l.ops[0].event;
            if x in t.l.evList then
              Books(t.(l := Unref(SyncRemove(t.l.(evList := LinkedList.RemoveFirst(t.l.evList, x)), x), x)), e)
            else Books(t, e)
  {
    CountPop(s.l.ops, RemoveOp(e));
    PopAccount(s, e);
    var t, x := AfterPop(s), s.l.ops[0].event;
    assert Books(t, e);
    if x in t.l.evList {
      DelistBooks(t, x, e);
    }
  }

  /** An account after the modify operation on its event has been popped and run. */
  function Modified(a: Account): Account
    requires a.changes > 0
  {
    var b := a.(changes := a.changes - 1, running := 1);
    if a.ev.inLoop then b.(started := a.ev.mask != {}, watched := a.ev.mask) else b
  }

  lemma ModifyBooks<E>(s: System<E>, e: E)
    requires s.pc == Replaying && s.l.ops != [] && s.l.ops[0].ModifyOp? && s.l.ops[0].event in s.l.evs
    requires Books(s, e)
    ensures Books(AfterPop(s).(l := SyncModified(AfterPop(s).l, s.l.ops[0].event)), e)
  {
    var x, t, a := s.l.ops[0].event, AfterPop(s), AccountOf(s, e);
    PopAccount(s, e);
    SyncModifiedAccount(t, x, e);
    if e == x {
      CountPop(s.l.ops, ModifyOp(e));
      assert AccountOf(t.(l := SyncModified(t.l, x)), e) == Modified(a);
    }
  }

  lemma {:induction false} ReleaseAllAccount<E>(s: System<E>, list: seq<E>, e: E)
    requires Distinct(list) && forall x :: x in list ==> x in s.l.evs
    ensures var a := AccountOf(s, e);
            AccountOf(s.(l := ReleaseAll(s.l, list)), e) ==
            if e in list then LessOne(a.(ev := a.ev.(inLoop := false), started := false, watched := {})) else a
    ensures ReleaseAll(s.l, list).evList == s.l.evList
    decreases |list|
  {
    if list != [] {
      var x := list[0];
      var t := s.(l := SyncRemove(s.l, x));
      SyncRemoveAccount(s, x, e);
      UnrefAccount(t, x, e);
      ReleaseAllAccount(s.(l := Unref(t.l, x)), list[1..], e);
    }
  }

  lemma EmptiedAccount<E>(s: System<E>, e: E)
    requires Tidy(s.l)
    ensures var a := AccountOf(s, e);
            AccountOf(s.(l := ReleaseAll(s.l, s.l.evList).(evList := [])), e) ==
            if e in s.l.evList then
              LessOne(a.(ev := a.ev.(inLoop := false), started := false, watched := {})).(listed := 0)
            else a
  {
    ReleaseAllAccount(s, s.l.evList, e);
    EvListAccount(s.(l := ReleaseAll(s.l, s.l.evList)), [], e);
  }

  lemma EmptyBooks<E>(s: System<E>, e: E)
    requires s.pc == Replaying && s.l.ops != [] && s.l.ops[0].QuitOp? && Tidy(s.l) && Books(s, e)
    ensures Books(AfterPop(s).(l := ReleaseAll(AfterPop(s).l, s.l.evList).(evList := [])), e)
  {
    var a := AccountOf(s, e);
    PopAccount(s, e);
    var t := AfterPop(s);
    EmptiedAccount(t, e);
    var u := t.(l := ReleaseAll(t.l, t.l.evList).(evList := []));
    if e in s.l.evList {
      assert a.listed == 1;
      assert AccountOf(u, e) == Delisted(a);
      DelistedBalanced(a);
    } else {
      assert AccountOf(u, e) == a;
    }
  }

  lemma PcAccount<E>(s: System<E>, pc: Pc<E>, e: E)
    ensures AccountOf(s.(pc := pc), e) == AccountOf(s, e).(running := Running(pc, e))
  {
  }

  lemma LessRunning(a: Account)
    requires Balanced(a) && a.live && a.running > 0
    ensures Balanced(LessOne(a).(running := a.running - 1))
  {
  }

  lemma ReleaseBooks<E>(s: System<E>, e: E)
    requires s.pc.Releasing? && (!s.pc.op.QuitOp? ==> s.pc.op.event in s.l.evs) && Books(s, e)
    ensures Books(System(if s.pc.op.QuitOp? then s.l else Unref(s.l, s.pc.op.event), s.held, Replaying), e)
  {
    var l, a := if s.pc.op.QuitOp? then s.l else Unref(s.l, s.pc.op.event), AccountOf(s, e);
    if !s.pc.op.QuitOp? {
      UnrefAccount(s, s.pc.op.event, e);
    }
    PcAccount(s.(l := l), Replaying, e);
    if !s.pc.op.QuitOp? && s.pc.op.event == e {
      assert AccountOf(System(l, s.held, Replaying), e) == LessOne(a).(running := 0);
      LessRunning(a);
    } else {
      assert AccountOf(System(l, s.held, Replaying), e) == a;
    }
  }

  lemma RequestBooks<E>(s: System<E>, a: Action<E>, e: E)
    requires Safe(s) && Enabled(s, a) && IsRequest(a) && Books(s, e)
    ensures Books(Step(s, a), e)
  {
    match a {
      case New(x, events) => NewBooks(s, x, events, e);
      case Take(x) => TakeBooks(s, x, e);
      case Drop(x) => DropBooks(s, x, e);
      case DoAttach(x) => AttachBooks(s, x, e);
      case DoRemove(x) => RemoveBooks(s, x, e);
      case DoAdd(x, events) => MaskBooks(s, x, s.l.evs[x].mask + events, e);
      case DoDel(x, events) => MaskBooks(s, x, s.l.evs[x].mask - events, e);
      case DoAddSync(x, events) => SyncBooks(s, x, s.l.evs[x].mask + events, e);
      case DoDelSync(x, events) => SyncBooks(s, x, s.l.evs[x].mask - events, e);
      case DoQuit => QuitBooks(s, e);
    }
  }

  lemma PopBooks<E>(s: System<E>, e: E)
    requires Safe(s) && s.pc == Replaying && Books(s, e)
    ensures Books(Step(s, Pop), e)
  {
    if s.l.ops == [] {
      PcAccount(s, Idle, e);
    } else {
      assert Step(s, Pop) == AfterPop(s).(l := Exec(AfterPop(s).l, s.l.ops[0]));
      match s.l.ops[0] {
        case AddOp(_) => AddBooks(s, e);
        case RemoveOp(_) => RemovalBooks(s, e);
        case ModifyOp(_) => ModifyBooks(s, e);
        case QuitOp => EmptyBooks(s, e);
      }
    }
  }

  lemma StepBooks<E>(s: System<E>, a: Action<E>, e: E)
    requires Safe(s) && Enabled(s, a) && Books(s, e)
    ensures Books(Step(s, a), e)
  {
    match a {
      case Wake =>
        assert AccountOf(Step(s, a), e) == AccountOf(s, e);
      case Pop => PopBooks(s, e);
      case Release => ReleaseBooks(s, e);
      case _ => RequestBooks(s, a, e);
    }
  }

  // ----- Replay refines immediate execution -----

  /** Running an operation leaves wishes, queue and wake-up state alone. */
  lemma ExecKeeps<E>(l: Loop<E>, op: Op<E>)
    requires Tidy(l) && (op.QuitOp? || op.event in l.evs)
    ensures var r := Exec(l, op);
            && (forall e :: e in r.evs ==> e in l.evs && r.evs[e].mask == l.evs[e].mask)
            && r.ops == l.ops && r.quited == l.quited && r.requestPending == l.requestPending && r.pipe == l.pipe
  {
    if op.QuitOp? {
      ReleaseAllFields(l, l.evList);
    }
  }

  /** Running one operation changes the events in the loop as Settled says. */
  lemma ExecSettles<E>(l: Loop<E>, op: Op<E>)
    requires Tidy(l) && (op.QuitOp? || op.event in l.evs)
    ensures InLoop(Exec(l, op)) == SettleOne(InLoop(l), op)
  {
    if op.RemoveOp? {
      if op.event in l.evList {
        RemoveFirstDistinct(l.evList, op.event);
      }
      assert InLoop(Exec(l, op)) == InLoop(l) - {op.event};
    }
  }

  lemma {:induction false} RemoveFirstDistinct<T>(s: seq<T>, x: T)
    requires Distinct(s) && x in s
    ensures forall y :: y in LinkedList.RemoveFirst(s, x) <==> y in s && y != x
  {
    assert s == [s[0]] + s[1..];
    if s[0] != x {
      RemoveFirstDistinct(s[1..], x);
    } else {
      assert forall y :: y in s[1..] ==> y != s[0];
    }
  }

  lemma {:induction false} ReleaseAllFields<E>(l: Loop<E>, list: seq<E>)
    requires Distinct(list) && forall e :: e in list ==> e in l.evs
    ensures var r := ReleaseAll(l, list);
            && (forall e :: e in r.evs ==> e in l.evs && r.evs[e].mask == l.evs[e].mask)
            && r.ops == l.ops && r.quited == l.quited && r.requestPending == l.requestPending && r.pipe == l.pipe
    decreases |list|
  {
    if list != [] {
      ReleaseAllFields(Unref(SyncRemove(l, list[0]), list[0]), list[1..]);
    }
  }

  /** The operation a request queues, if any. */
  ghost function Queues<E>(l: Loop<E>, a: Action<E>): Option<Op<E>> {
    if l.quited then None
    else match a
      case DoAttach(e) => Some(AddOp(e))
      case DoRemove(e) => Some(RemoveOp(e))
      case DoAdd(e, events) =>
        if e in l.evs && l.evs[e].attached && l.evs[e].mask * events != events then Some(ModifyOp(e)) else None
      case DoDel(e, events) =>
        if e in l.evs && l.evs[e].attached && l.evs[e].mask * events != {} then Some(ModifyOp(e)) else None
      case DoQuit => Some(QuitOp)
      case _ => None
  }

  /** Only the queue, the references and the wake-up state change when an operation is queued. */
  lemma PostKeeps<E>(l: Loop<E>, op: Op<E>)
    requires (op.QuitOp? || op.event in l.evs) && l.pipe == (if l.requestPending then 1 else 0)
    ensures var t := Post(l, op);
            && t.ops == l.ops + [op] && t.evList == l.evList && t.quited == l.quited
            && t.requestPending && t.pipe == 1
            && t.evs.Keys == l.evs.Keys && forall x :: x in l.evs ==> t.evs[x].mask == l.evs[x].mask
  {
  }

  lemma ChangeMaskKeeps<E>(l: Loop<E>, e: E, w: Mask)
    requires e in l.evs && l.pipe == (if l.requestPending then 1 else 0)
    ensures var t := ChangeMask(l, e, w);
            && t.ops == (if l.evs[e].attached && !l.quited then l.ops + [ModifyOp(e)] else l.ops)
            && t.evList == l.evList && t.quited == l.quited
            && t.pipe == (if t.requestPending then 1 else 0)
            && (t.ops != l.ops || l.requestPending ==> t.requestPending)
            && t.evs.Keys == l.evs.Keys
            && forall x :: x in l.evs ==> t.evs[x].mask == if x == e then w else l.evs[x].mask
  {
    var l' := SetMask(l, e, w);
    if l.evs[e].attached && !l.quited {
      PostKeeps(l', ModifyOp(e));
    }
  }

  lemma SyncKeeps<E>(l: Loop<E>, e: E, w: Mask)
    requires e in l.evs
    ensures var t := SyncModified(SetMask(l, e, w), e);
            && t == l.(evs := t.evs, watched := t.watched)
            && t.evs.Keys == l.evs.Keys
            && forall x :: x in l.evs ==> t.evs[x].mask == if x == e then w else l.evs[x].mask
  {
  }

  lemma RequestQueues<E>(s: System<E>, a: Action<E>)
    requires Safe(s) && Enabled(s, a) && IsRequest(a) && Awake(s)
    ensures var t, q := Step(s, a), Queues(s.l, a);
            && t.l.ops == (if q.Some? then s.l.ops + [q.value] else s.l.ops)
            && t.l.evList == s.l.evList && Awake(t) && t.pc == s.pc
            && t.l.quited == (s.l.quited || a.DoQuit?)
  {
    match a {
      case DoAdd(e, events) => ChangeMaskKeeps(s.l, e, s.l.evs[e].mask + events);
      case DoDel(e, events) => ChangeMaskKeeps(s.l, e, s.l.evs[e].mask - events);
      case DoAddSync(e, events) => SyncKeeps(s.l, e, s.l.evs[e].mask + events);
      case DoDelSync(e, events) => SyncKeeps(s.l, e, s.l.evs[e].mask - events);
      case _ =>
    }
  }

  /** Applying a request at once changes the reference loop as replaying what it queues will. */
  lemma AppliesWhatItQueues<E>(l: Loop<E>, m: Immediate<E>, a: Action<E>)
    requires IsRequest(a) && m.quited == l.quited && (m.quited ==> m.loop.Keys == {})
    ensures Apply(m, a).quited == (l.quited || a.DoQuit?)
    ensures Apply(m, a).loop.Keys ==
            match Queues(l, a) case Some(op) => SettleOne(m.loop.Keys, op) case None => m.loop.Keys
  {
  }

  lemma RequestRefines<E>(s: System<E>, m: Immediate<E>, a: Action<E>)
    requires SameLoop(s, m) && Awake(s) && Safe(s) && Enabled(s, a) && IsRequest(a)
    ensures Awake(Step(s, a)) && SameLoop(Step(s, a), Apply(m, a))
  {
    RequestQueues(s, a);
    AppliesWhatItQueues(s.l, m, a);
    var t, q := Step(s, a), Queues(s.l, a);
    assert InLoop(t.l) == InLoop(s.l);
    if q.Some? {
      SettledPost(InLoop(s.l), s.l.ops, q.value);
    }
  }

  lemma LoopRefines<E>(s: System<E>, m: Immediate<E>, a: Action<E>)
    requires SameLoop(s, m) && Awake(s) && Safe(s) && Enabled(s, a) && !IsRequest(a)
    ensures Awake(Step(s, a)) && SameLoop(Step(s, a), m)
  {
    if a.Pop? && s.l.ops != [] {
      SettledPop(InLoop(s.l), s.l.ops);
      ExecSettles(s.l.(ops := s.l.ops[1..]), s.l.ops[0]);
      ExecKeeps(s.l.(ops := s.l.ops[1..]), s.l.ops[0]);
    } else {
      assert InLoop(Step(s, a).l) == InLoop(s.l);
    }
  }

  /** A new event is not in the reference loop under an earlier event's name. */
  lemma NotSettledIfFreed<E>(s: System<E>, m: Immediate<E>, e: E)
    requires Inv(s, m) && e !in s.l.evs
    ensures e !in m.loop
  {
    BooksOf(s, e);
    if e in m.loop {
      SettledFrom(InLoop(s.l), s.l.ops, e);
    }
  }

  /** The guards that skip a mask change skip only changes that change nothing. */
  lemma NothingToChange(w: Mask, events: Mask)
    ensures w * events == events ==> w + events == w
    ensures w * events == {} ==> w - events == w
    ensures events == {} ==> w + events == w && w - events == w
  {
    assert w * events == events ==> forall f :: f in events ==> f in w * events;
    assert w * events == {} ==> forall f :: f in events ==> f !in w || f in w * events;
  }

  predicate ChangesMask<E>(a: Action<E>) {
    a.DoAdd? || a.DoDel? || a.DoAddSync? || a.DoDelSync?
  }

  /** What a mask request leaves an event wanting, whichever branch it takes. */
  lemma MaskAfter<E>(s: System<E>, a: Action<E>, e: E)
    requires Safe(s) && Enabled(s, a) && ChangesMask(a) && Awake(s)
    ensures var t, w := Step(s, a), s.l.evs[a.e].mask;
            && (e in t.l.evs <==> e in s.l.evs) && a.e in t.l.evs
            && (e in s.l.evs && e != a.e ==> t.l.evs[e].mask == s.l.evs[e].mask)
            && t.l.evs[a.e].mask == if a.DoAdd? || a.DoAddSync? then w + a.events else w - a.events
  {
    var w := s.l.evs[a.e].mask;
    NothingToChange(w, a.events);
    if a.DoAdd? || a.DoDel? {
      ChangeMaskKeeps(s.l, a.e, if a.DoAdd? then w + a.events else w - a.events);
    } else {
      SyncKeeps(s.l, a.e, if a.DoAddSync? then w + a.events else w - a.events);
    }
  }

  lemma MaskAgrees<E>(s: System<E>, m: Immediate<E>, a: Action<E>, e: E)
    requires Safe(s) && Enabled(s, a) && ChangesMask(a) && Awake(s)
    requires Agrees(s, m, e) && Agrees(s, m, a.e)
    ensures Agrees(Step(s, a), Apply(m, a), e)
  {
    MaskAfter(s, a, e);
    var n := Apply(m, a);
    var w := if a.DoAdd? || a.DoAddSync? then Want(m, a.e) + a.events else Want(m, a.e) - a.events;
    assert n == SetWant(m, a.e, w);
  }

  lemma NewAgrees<E>(s: System<E>, m: Immediate<E>, a: Action<E>, e: E)
    requires Enabled(s, a) && a.New? && Safe(s) && Agrees(s, m, e) && a.e !in m.loop
    ensures Agrees(Step(s, a), Apply(m, a), e)
  {
  }

  lemma PopAgrees<E>(s: System<E>, m: Immediate<E>, e: E)
    requires Safe(s) && s.pc == Replaying && Agrees(s, m, e)
    ensures Agrees(Step(s, Pop), m, e)
  {
    if s.l.ops != [] {
      ExecKeeps(s.l.(ops := s.l.ops[1..]), s.l.ops[0]);
    }
  }

  /** Any other action changes no wish, in the system or in the reference. */
  lemma OtherAgrees<E>(s: System<E>, m: Immediate<E>, a: Action<E>, e: E)
    requires Enabled(s, a) && Safe(s) && !a.New? && !a.Pop? && !ChangesMask(a) && Agrees(s, m, e)
    ensures Agrees(Step(s, a), Apply(m, a), e)
  {
  }

  lemma StepAgrees<E>(s: System<E>, m: Immediate<E>, a: Action<E>, e: E)
    requires Inv(s, m) && Safe(s) && Enabled(s, a)
    ensures Agrees(Step(s, a), Apply(m, a), e)
  {
    assert e !in s.l.evs.Keys + m.loop.Keys ==> Agrees(s, m, e);
    if ChangesMask(a) {
      assert Agrees(s, m, a.e);
      MaskAgrees(s, m, a, e);
    } else if a.New? {
      NotSettledIfFreed(s, m, a.e);
      NewAgrees(s, m, a, e);
    } else if a.Pop? {
      PopAgrees(s, m, e);
    } else {
      OtherAgrees(s, m, a, e);
    }
  }

  lemma StepInv<E>(s: System<E>, m: Immediate<E>, a: Action<E>)
    requires Inv(s, m) && Safe(s) && Enabled(s, a)
    ensures Inv(Step(s, a), Apply(m, a))
  {
    forall e | e in Named(Step(s, a)) ensures Books(Step(s, a), e) {
      BooksOf(s, e);
      StepBooks(s, a, e);
    }
    var t, n := Step(s, a), Apply(m, a);
    forall e | e in t.l.evs.Keys + n.loop.Keys ensures Agrees(t, n, e) {
      StepAgrees(s, m, a, e);
    }
    if IsRequest(a) {
      RequestRefines(s, m, a);
    } else {
      LoopRefines(s, m, a);
    }
  }

  // ----- Runs -----

  ghost predicate Init<E>(s: System<E>) {
    s == System(Loop(map[], [], [], map[], false, 0, false), map[], Idle)
  }

  /** One step of a run. Only a safe state determines what follows: touching a freed event could
      do anything. */
  ghost predicate Next<E>(s: System<E>, a: Action<E>, t: System<E>) {
    Enabled(s, a) && (Safe(s) ==> t == Step(s, a))
  }

  ghost predicate Run<E>(states: seq<System<E>>, acts: seq<Action<E>>) {
    && |states| == |acts| + 1
    && Init(states[0])
    && forall i :: 0 <= i < |acts| ==> Next(states[i], acts[i], states[i + 1])
  }

  lemma InitInv<E>(s: System<E>)
    requires Init(s)
    ensures Inv(s, ApplyAll([]))
  {
  }

  lemma NextInv<E>(s: System<E>, m: Immediate<E>, a: Action<E>, t: System<E>)
    requires Inv(s, m) && Next(s, a, t)
    ensures Inv(t, Apply(m, a))
  {
    forall e ensures Books(s, e) {
      BooksOf(s, e);
    }
    InvIsSafe(s);
    StepInv(s, m, a);
  }

  lemma RunInv<E>(states: seq<System<E>>, acts: seq<Action<E>>)
    requires Run(states, acts)
    ensures Inv(states[|acts|], ApplyAll(acts)) && Safe(states[|acts|])
  {
    InitInv(states[0]);
    forall i | 0 <= i < |acts| && Inv(states[i], ApplyAll(acts[..i]))
      ensures Inv(states[i + 1], ApplyAll(acts[..i + 1]))
    {
      assert acts[..i + 1][..i] == acts[..i];
      NextInv(states[i], ApplyAll(acts[..i]), acts[i], states[i + 1]);
    }
    AlongRun(i => 0 <= i < |states| && Inv(states[i], ApplyAll(acts[..i])), |acts|);
    assert acts[..|acts|] == acts;
    forall e ensures Books(states[|acts|], e) {
      BooksOf(states[|acts|], e);
    }
    InvIsSafe(states[|acts|]);
  }

  /** A step of the loop thread changes nothing for the reference. */
  lemma LoopStepInv<E>(s: System<E>, m: Immediate<E>, a: Action<E>)
    requires Inv(s, m) && Enabled(s, a) && !IsRequest(a)
    ensures Safe(s) && Inv(Step(s, a), m)
  {
    forall e ensures Books(s, e) {
      BooksOf(s, e);
    }
    InvIsSafe(s);
    StepInv(s, m, a);
  }

  /** One round of the replay: the operation at the head of the queue is popped, run and released. */
  lemma ReplayRound<E>(l: Loop<E>, held: map<E, nat>, m: Immediate<E>)
    requires Inv(System(l, held, Replaying), m) && l.ops != []
    ensures var op := l.ops[0];
            && Tidy(l) && (!op.QuitOp? ==> op.event in l.evs && op.event in PopExec(l).evs)
            && Inv(System(if op.QuitOp? then PopExec(l) else Unref(PopExec(l), op.event), held, Replaying), m)
  {
    LoopStepInv(System(l, held, Replaying), m, Pop);
    LoopStepInv(System(PopExec(l), held, Releasing(l.ops[0])), m, Release);
  }

  lemma ReplayDone<E>(l: Loop<E>, held: map<E, nat>, m: Immediate<E>)
    requires Inv(System(l, held, Replaying), m) && l.ops == []
    ensures Inv(System(l, held, Idle), m) && View(l) == m.loop
  {
    LoopStepInv(System(l, held, Replaying), m, Pop);
    EmptyQueueView(System(l, held, Replaying), m);
  }

  /** With an empty queue the loop is the reference loop. */
  lemma EmptyQueueView<E>(s: System<E>, m: Immediate<E>)
    requires Inv(s, m) && s.l.ops == []
    ensures View(s.l) == m.loop
    ensures forall e :: e in s.l.evs ==> (s.l.evs[e].inLoop <==> e in m.loop) && s.l.evs[e].mask == Want(m, e)
  {
    assert InLoop(s.l) == m.loop.Keys;
    forall e | e in s.l.evList ensures e in s.l.evs && WatchedMask(s.l, e) == m.loop[e] {
      BooksOf(s, e);
      assert Agrees(s, m, e);
    }
    forall e | e in s.l.evs ensures (s.l.evs[e].inLoop <==> e in m.loop) && s.l.evs[e].mask == Want(m, e) {
      BooksOf(s, e);
      assert Agrees(s, m, e);
    }
  }

  /** Deferred replay refines immediate execution. Whatever the interleaving, once the queue is
      empty the events in the loop, their in-loop flags and the masks libev watches are those
      that applying every request at once would have left. */
  lemma ReplayRefinesImmediate<E>(states: seq<System<E>>, acts: seq<Action<E>>)
    requires Run(states, acts)
    ensures var s, m := states[|acts|], ApplyAll(acts);
            s.l.ops == [] ==>
              && View(s.l) == m.loop
              && (forall e :: e in s.l.evs ==> (s.l.evs[e].inLoop <==> e in m.loop) && s.l.evs[e].mask == Want(m, e))
  {
    RunInv(states, acts);
    if states[|acts|].l.ops == [] {
      EmptyQueueView(states[|acts|], ApplyAll(acts));
    }
  }

  /** Reference conservation. A live event's count is what callers, queued or running operations
      and ev_list own together, and nothing in the loop names a freed event. */
  lemma ReferencesConserved<E>(states: seq<System<E>>, acts: seq<Action<E>>)
    requires Run(states, acts)
    ensures var s := states[|acts|];
            && Safe(s)
            && (forall e :: e in s.l.evs ==>
                 && s.l.evs[e].refs == Held(s, e) + Count(s.l.ops, AddOp(e)) + Count(s.l.ops, RemoveOp(e))
                      + Count(s.l.ops, ModifyOp(e)) + Running(s.pc, e) + (if e in s.l.evList then 1 else 0)
                 && s.l.evs[e].refs > 0)
            && (forall e :: e in s.l.watched ==> e in s.l.evList)
  {
    RunInv(states, acts);
    var s := states[|acts|];
    forall e | e in s.l.evs || e in s.l.watched ensures Books(s, e) && (e in s.l.evList <==> Count(s.l.evList, e) > 0) {
      BooksOf(s, e);
    }
  }

  lemma HasElement<T>(s: seq<T>)
    ensures s == [] || exists x :: x in s
  {
    if s != [] {
      assert s[0] in s;
    }
  }

  /** After a quit has been replayed the loop owns no reference: every live event is kept by its
      callers alone. */
  lemma QuitReleasesEverything<E>(states: seq<System<E>>, acts: seq<Action<E>>)
    requires Run(states, acts)
    ensures var s := states[|acts|];
            s.l.quited && s.l.ops == [] ==>
              && s.l.evList == [] && s.l.watched == map[]
              && (forall e :: e in s.l.evs ==> s.l.evs[e].refs == Held(s, e) + Running(s.pc, e))
  {
    RunInv(states, acts);
    ReferencesConserved(states, acts);
    var s := states[|acts|];
    if s.l.quited && s.l.ops == [] {
      assert InLoop(s.l) == {};
      HasElement(s.l.evList);
      assert forall e :: e in s.l.evList ==> e in InLoop(s.l);
      assert s.l.watched.Keys == {};
    }
  }

  /** No lost wake-up: the pipe holds a byte exactly when one is recorded as pending, and queued
      operations imply such a byte or a loop thread inside its replay. */
  lemma NoLostWakeup<E>(states: seq<System<E>>, acts: seq<Action<E>>)
    requires Run(states, acts)
    ensures var s := states[|acts|];
            && s.l.pipe == (if s.l.requestPending then 1 else 0)
            && (s.l.ops != [] ==> s.l.requestPending || s.pc != Idle)
  {
    RunInv(states, acts);
  }

  /** The quit operation is queued once, behind all others, and nothing is queued after it. */
  ghost predicate QuitLast<E>(s: System<E>) {
    forall i :: 0 <= i < |s.l.ops| ==> (s.l.ops[i].QuitOp? <==> s.l.quited && i == |s.l.ops| - 1)
  }

  lemma NextQuitLast<E>(s: System<E>, m: Immediate<E>, a: Action<E>, t: System<E>)
    requires Inv(s, m) && Next(s, a, t) && QuitLast(s)
    ensures QuitLast(t)
  {
    forall e ensures Books(s, e) {
      BooksOf(s, e);
    }
    InvIsSafe(s);
    if IsRequest(a) {
      RequestQueues(s, a);
    } else if a.Pop? && s.l.ops != [] {
      ExecKeeps(s.l.(ops := s.l.ops[1..]), s.l.ops[0]);
    }
  }

  /** A loop that has been told to quit takes no more requests. */
  lemma {:induction false} NothingAfterQuit<E>(states: seq<System<E>>, acts: seq<Action<E>>)
    requires Run(states, acts)
    ensures QuitLast(states[|acts|])
  {
    if acts != [] {
      var n := |acts| - 1;
      assert Run(states[..|acts|], acts[..n]);
      NothingAfterQuit(states[..|acts|], acts[..n]);
      RunInv(states[..|acts|], acts[..n]);
      NextQuitLast(states[n], ApplyAll(acts[..n]), acts[n], states[n + 1]);
    }
  }

  /** The loop thread's next step. */
  function LoopStep<E>(s: System<E>): Action<E> {
    if s.pc == Idle then Wake else if s.pc == Replaying then Pop else Release
  }

  function Distance<E>(s: System<E>): nat {
    3 * |s.l.ops| + if s.pc == Idle then (if s.l.ops == [] then 0 else 2) else if s.pc == Replaying then 1 else 2
  }

  /** From any reachable state the loop thread alone can run until the queue is empty and it is
      waiting again, and the loop is then what immediate execution of the requests made so far
      would have left. */
  lemma {:induction false} LoopAloneCatchesUp<E>(states: seq<System<E>>, acts: seq<Action<E>>)
    returns (states': seq<System<E>>, acts': seq<Action<E>>)
    requires Run(states, acts)
    ensures Run(states', acts') && acts <= acts' && |acts'| <= |acts| + Distance(states[|acts|])
    ensures forall i :: |acts| <= i < |acts'| ==> !IsRequest(acts'[i])
    ensures var s := states'[|acts'|];
            && s.l.ops == [] && s.pc == Idle && View(s.l) == ApplyAll(acts).loop
            && s.held == states[|acts|].held && s.l.quited == states[|acts|].l.quited
    decreases Distance(states[|acts|])
  {
    var s := states[|acts|];
    RunInv(states, acts);
    if s.l.ops == [] && s.pc == Idle {
      states', acts' := states, acts;
      ReplayRefinesImmediate(states, acts);
    } else {
      var a := LoopStep(s);
      var t := Step(s, a);
      if a.Pop? && s.l.ops != [] {
        ExecKeeps(s.l.(ops := s.l.ops[1..]), s.l.ops[0]);
      }
      assert Distance(t) < Distance(s);
      assert (acts + [a])[..|acts|] == acts;
      assert Run(states + [t], acts + [a]);
      states', acts' := LoopAloneCatchesUp(states + [t], acts + [a]);
    }
  }
}
