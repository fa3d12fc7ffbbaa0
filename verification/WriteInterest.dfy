/** A watch and its event loop together (src/proto_watch.c over src/h6_ev.c): the interest in writing
    is the EV_WRITE bit of the event's mask, which reaches libev through the operation queue. The
    steps of both machines interleave; those that set or clear the bit are taken together. */
module WriteInterest {
  import opened Base
  import opened EvModel
  import Ev = EvSystem
  import Send = SendSystem
  import SendModel

  const WRITE: Mask := {EvWrite}

  /** m: what the loop would be if every request were applied at once. */
  datatype System<E> = System(send: Send.System, ev: Ev.System<E>, m: Ev.Immediate<E>)

  datatype Action<E> =
    | OnSend(s: Send.Action) | AddWrite | StartConnect | WriteEvent(script: seq<SendModel.Answer>)
    | OnLoop(a: Ev.Action<E>)

  /** Nobody but the watch touches the EV_WRITE bit of its event, and the event is created once. */
  predicate Elsewhere<E(==)>(a: Ev.Action<E>, e: E) {
    !(Ev.ChangesMask(a) && a.e == e && EvWrite in a.events) && !(a.New? && a.e == e)
  }

  /** A write event is dispatched by the loop thread outside a replay. */
  predicate Enabled<E(==)>(y: System<E>, e: E, a: Action<E>) {
    match a
    case OnSend(s) => (s.Write? || s.SetWindow? || s.Kill? || s.Finish?) && Send.Enabled(y.send, s)
    case AddWrite => Send.Enabled(y.send, Send.AddInterest) && Ev.Enabled(y.ev, Ev.DoAdd(e, WRITE))
    case StartConnect => Send.Enabled(y.send, Send.Connect) && Ev.Enabled(y.ev, Ev.DoAdd(e, WRITE))
    case WriteEvent(script) => Send.Enabled(y.send, Send.Writable(script)) && Ev.Enabled(y.ev, Ev.DoDelSync(e, WRITE))
    case OnLoop(a) => Ev.Enabled(y.ev, a) && Elsewhere(a, e)
  }

  /** The watch has found nothing left to send. */
  predicate RunsDry(w: SendModel.Watch, script: seq<SendModel.Answer>) {
    !w.connecting && SendModel.WritePending(w, script).err == 0
  }

  /** What a step does to the loop, if anything. */
  function LoopPart<E>(y: System<E>, e: E, a: Action<E>): Option<Ev.Action<E>> {
    match a
    case OnSend(_) => None
    case AddWrite => Some(Ev.DoAdd(e, WRITE))
    case StartConnect => Some(Ev.DoAdd(e, WRITE))
    case WriteEvent(script) => if RunsDry(y.send.w, script) then Some(Ev.DoDelSync(e, WRITE)) else None
    case OnLoop(a) => Some(a)
  }

  /** What a step does to the watch, if anything. */
  function SendPart<E>(a: Action<E>): Option<Send.Action> {
    match a
    case OnSend(s) => Some(s)
    case AddWrite => Some(Send.AddInterest)
    case StartConnect => Some(Send.Connect)
    case WriteEvent(script) => Some(Send.Writable(script))
    case OnLoop(_) => None
  }

  ghost predicate Next<E>(y: System<E>, e: E, a: Action<E>, z: System<E>) {
    var s, l := SendPart(a), LoopPart(y, e, a);
    && Enabled(y, e, a)
    && z.send == (if s.Some? then Send.Step(y.send, s.value) else y.send)
    && (if l.Some? then Ev.Next(y.ev, l.value, z.ev) && z.m == Ev.Apply(y.m, l.value)
        else z.ev == y.ev && z.m == y.m)
  }

  function Nothing<E>(): Ev.System<E> {
    Ev.System(Loop(map[], [], [], map[], false, 0, false), map[], Ev.Idle)
  }

  /** A new watch whose event, wanting to read, has just been created. */
  ghost predicate Init<E>(y: System<E>, e: E) {
    && Send.Init(y.send)
    && Ev.Next(Nothing(), Ev.New(e, {EvRead}), y.ev)
    && y.m == Ev.Apply(Ev.ApplyAll([]), Ev.New(e, {EvRead}))
  }

  /** The interest in writing is what the event wants. */
  ghost predicate Inv<E>(y: System<E>, e: E) {
    && Send.Inv(y.send) && Ev.Inv(y.ev, y.m)
    && (y.send.w.interest <==> EvWrite in Ev.Want(y.m, e))
  }

  lemma InitInv<E>(y: System<E>, e: E)
    requires Init(y, e)
    ensures Inv(y, e)
  {
    Send.InitInv(y.send);
    Ev.InitInv(Nothing<E>());
    Ev.NextInv(Nothing<E>(), Ev.ApplyAll([]), Ev.New(e, {EvRead}), y.ev);
  }

  /** A write event that runs dry gives up the interest, and no other one does. */
  lemma WriteEventInterest(s: Send.System, script: seq<SendModel.Answer>)
    requires Send.Inv(s) && Send.Enabled(s, Send.Writable(script))
    ensures var t := Send.Step(s, Send.Writable(script));
            t.w.interest == (s.w.interest && !RunsDry(s.w, script))
  {
    if !s.w.connecting {
      Send.TailSplits(Send.Carried(s), Send.Front(s), s.w);
      Send.PendingKeeps(s.w, script, Send.Carried(s));
    }
  }

  /** Writing, trimming and dying leave the interest alone. */
  lemma SendInterest(s: Send.System, a: Send.Action)
    requires Send.Enabled(s, a) && (a.Write? || a.SetWindow? || a.Kill? || a.Finish?)
    ensures Send.Step(s, a).w.interest == s.w.interest
  {
  }

  lemma NextInv<E>(y: System<E>, e: E, a: Action<E>, z: System<E>)
    requires Inv(y, e) && Next(y, e, a, z)
    ensures Inv(z, e)
  {
    var s, l := SendPart(a), LoopPart(y, e, a);
    if s.Some? {
      Send.StepInv(y.send, s.value);
    }
    if l.Some? {
      Ev.NextInv(y.ev, y.m, l.value, z.ev);
    }
    match a {
      case OnSend(s) => SendInterest(y.send, s);
      case WriteEvent(script) => WriteEventInterest(y.send, script);
      case _ =>
    }
  }

  ghost predicate Run<E>(states: seq<System<E>>, e: E, acts: seq<Action<E>>) {
    && |states| == |acts| + 1
    && Init(states[0], e)
    && forall i :: 0 <= i < |acts| ==> Next(states[i], e, acts[i], states[i + 1])
  }

  ghost predicate InvAt<E>(states: seq<System<E>>, e: E, i: int) {
    0 <= i < |states| && Inv(states[i], e)
  }

  lemma InvBegins<E>(states: seq<System<E>>, e: E, acts: seq<Action<E>>)
    requires Run(states, e, acts)
    ensures InvAt(states, e, 0)
  {
    InitInv(states[0], e);
  }

  lemma InvGoesOn<E>(states: seq<System<E>>, e: E, acts: seq<Action<E>>, i: nat)
    requires Run(states, e, acts) && i < |acts| && InvAt(states, e, i)
    ensures InvAt(states, e, i + 1)
  {
    NextInv(states[i], e, acts[i], states[i + 1]);
  }

  lemma RunInv<E>(states: seq<System<E>>, e: E, acts: seq<Action<E>>)
    requires Run(states, e, acts)
    ensures Inv(states[|acts|], e)
  {
    InvBegins(states, e, acts);
    forall i | 0 <= i < |acts| && InvAt(states, e, i) ensures InvAt(states, e, i + 1) {
      InvGoesOn(states, e, acts, i);
    }
    AlongRun(i => InvAt(states, e, i), |acts|);
  }

  /** Write interest reaches libev. In every run, if a live watch that is in its loop has something to
      send, no writer has still to add its interest and the loop has run its queue, then libev
      watches the connection for writing. */
  lemma SomethingToSendIsWatched<E>(states: seq<System<E>>, e: E, acts: seq<Action<E>>)
    requires Run(states, e, acts)
    ensures var y := states[|acts|];
            && !y.send.w.killed && SendModel.Held(y.send.w) != [] && y.send.adders == 0
            && y.ev.l.ops == [] && e in y.m.loop
            ==> e in y.ev.l.evList && EvWrite in WatchedMask(y.ev.l, e)
  {
    RunInv(states, e, acts);
    var y := states[|acts|];
    if y.ev.l.ops == [] && e in y.m.loop {
      Ev.EmptyQueueView(y.ev, y.m);
      assert Ev.Agrees(y.ev, y.m, e);
      assert e in View(y.ev.l);
    }
  }

  /** A watch whose event is not wanted for writing has nothing to send, unless a writer is about to
      say so: what libev watches for once the queue has run is never less than what is needed. */
  lemma UnwatchedHasNothingToSend<E>(states: seq<System<E>>, e: E, acts: seq<Action<E>>)
    requires Run(states, e, acts)
    ensures var y := states[|acts|];
            && !y.send.w.killed && e in y.ev.l.evs && EvWrite !in y.ev.l.evs[e].mask && y.send.adders == 0
            ==> SendModel.Held(y.send.w) == []
  {
    RunInv(states, e, acts);
    var y := states[|acts|];
    if e in y.ev.l.evs {
      assert Ev.Agrees(y.ev, y.m, e);
    }
  }
}
