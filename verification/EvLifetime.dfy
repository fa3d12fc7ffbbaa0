/** How long an event lives (src/h6_ev.c). After it has dropped a reference the code reads the count
    of the event once more: the loop thread after it has released an operation, and any thread in
    h6_ev_unref when its reference was not the last. This module says when the event is still
    there. */
module EvLifetime {
  import opened EvModel
  import opened EvSystem

  /** The loop will give up a reference to e, in its own time. */
  ghost predicate LoopOwns<E>(l: Loop<E>, e: E) {
    e in l.evList || AddOp(e) in l.ops || RemoveOp(e) in l.ops || ModifyOp(e) in l.ops
  }

  /** A live event has a reference owned by a caller, by the loop, or by the operation being released. */
  lemma WhoOwns<E>(s: System<E>, e: E)
    requires Books(s, e)
    ensures e in s.l.evs <==> Held(s, e) > 0 || LoopOwns(s.l, e) || Running(s.pc, e) > 0
    ensures e in s.l.evs ==> s.l.evs[e].refs >= Held(s, e) + Running(s.pc, e)
    ensures e in s.l.evs && !LoopOwns(s.l, e) ==> s.l.evs[e].refs == Held(s, e) + Running(s.pc, e)
  {
    assert e in s.l.evList <==> Count(s.l.evList, e) > 0;
    assert AddOp(e) in s.l.ops <==> Count(s.l.ops, AddOp(e)) > 0;
    assert RemoveOp(e) in s.l.ops <==> Count(s.l.ops, RemoveOp(e)) > 0;
    assert ModifyOp(e) in s.l.ops <==> Count(s.l.ops, ModifyOp(e)) > 0;
  }

  lemma RunBooks<E>(states: seq<System<E>>, acts: seq<Action<E>>, e: E)
    requires Run(states, acts)
    ensures Safe(states[|acts|]) && Books(states[|acts|], e)
  {
    RunInv(states, acts);
    BooksOf(states[|acts|], e);
  }

  /** The loop thread reads the count of an event that its own release has just freed exactly when
      no caller, no queued operation and not ev_list refers to the event. */
  lemma ReleaseFreesExactly<E>(states: seq<System<E>>, acts: seq<Action<E>>, e: E)
    requires Run(states, acts) && Running(states[|acts|].pc, e) > 0
    ensures var s := states[|acts|];
            Safe(s) && (e !in Step(s, Release).l.evs <==> Held(s, e) == 0 && !LoopOwns(s.l, e))
  {
    RunBooks(states, acts, e);
    WhoOwns(states[|acts|], e);
    StepBooks(states[|acts|], Release, e);
    WhoOwns(Step(states[|acts|], Release), e);
  }

  /** One more step of a run. */
  lemma Extend<E>(states: seq<System<E>>, acts: seq<Action<E>>, a: Action<E>)
    returns (states': seq<System<E>>, acts': seq<Action<E>>)
    requires Run(states, acts) && Enabled(states[|acts|], a)
    ensures Safe(states[|acts|])
    ensures Run(states', acts') && acts' == acts + [a] && states' == states + [Step(states[|acts|], a)]
  {
    RunInv(states, acts);
    states', acts' := states + [Step(states[|acts|], a)], acts + [a];
  }

  // ----- The ordinary life of an event -----

  /** The state in which e, owned by one caller, is in the loop and nothing is queued. */
  ghost function Attached<E>(e: E, pc: Pc<E>): System<E> {
    System(Loop(map[e := Ev(2, {EvRead}, true, true)], [], [e], map[e := {EvRead}], false, 0, false), map[e := 1], pc)
  }

  /** The state in which the loop thread is about to take e, owned by one caller, into the loop. */
  ghost function Attaching<E>(e: E): System<E> {
    var l := Loop(map[e := Ev(2, {EvRead}, false, true)], [AddOp(e)], [], map[], false, 0, false);
    System(l, map[e := 1], Replaying)
  }

  lemma GetsQueued<E>(e: E) returns (states: seq<System<E>>, acts: seq<Action<E>>)
    ensures Run(states, acts) && acts == [New(e, {EvRead}), DoAttach(e), Wake]
    ensures states[|acts|] == Attaching(e)
  {
    states, acts := [System(Loop(map[], [], [], map[], false, 0, false), map[], Idle)], [];
    states, acts := Extend(states, acts, New(e, {EvRead}));
    states, acts := Extend(states, acts, DoAttach(e));
    states, acts := Extend(states, acts, Wake);
  }

  lemma GetsAttached<E>(e: E) returns (states: seq<System<E>>, acts: seq<Action<E>>)
    ensures Run(states, acts) && acts == [New(e, {EvRead}), DoAttach(e), Wake, Pop, Release, Pop]
    ensures states[|acts|] == Attached(e, Idle)
  {
    states, acts := GetsQueued(e);
    states, acts := Extend(states, acts, Pop);
    states, acts := Extend(states, acts, Release);
    assert states[|acts|] == Attached(e, Replaying);
    states, acts := Extend(states, acts, Pop);
  }

  /** The state in which e is in the loop, its removal is queued, and no caller owns it any more. */
  ghost function Abandoned<E>(e: E): System<E> {
    var l := Loop(map[e := Ev(2, {EvRead}, true, true)], [RemoveOp(e)], [e], map[e := {EvRead}], true, 1, false);
    System(l, map[e := 0], Idle)
  }

  lemma GetsAbandoned<E>(e: E) returns (states: seq<System<E>>, acts: seq<Action<E>>)
    ensures Run(states, acts)
    ensures acts == [New(e, {EvRead}), DoAttach(e), Wake, Pop, Release, Pop, DoRemove(e), Drop(e)]
    ensures states[|acts|] == Abandoned(e)
  {
    states, acts := GetsAttached(e);
    states, acts := Extend(states, acts, DoRemove(e));
    states, acts := Extend(states, acts, Drop(e));
  }

  /** The ordinary life of an event: it is attached and removed, and its caller lets go of it before
      the loop gets to the removal. The loop thread is then about to release the last reference. */
  lemma LastReference<E>(e: E) returns (states: seq<System<E>>, acts: seq<Action<E>>)
    ensures Run(states, acts)
    ensures acts == [New(e, {EvRead}), DoAttach(e), Wake, Pop, Release, Pop, DoRemove(e), Drop(e), Wake, Pop]
    ensures var s := states[|acts|];
            s.pc == Releasing(RemoveOp(e)) && Safe(s) && e in s.l.evs && e !in Step(s, Release).l.evs
  {
    states, acts := GetsAbandoned(e);
    states, acts := Extend(states, acts, Wake);
    states, acts := Extend(states, acts, Pop);
    assert states[|acts|].l.ops == [] && states[|acts|].l.evList == [] && Held(states[|acts|], e) == 0;
    ReleaseFreesExactly(states, acts, e);
    RunBooks(states, acts, e);
    WhoOwns(states[|acts|], e);
  }

  // ----- What can happen before the count is read -----

  /** What follows a run. */
  ghost predicate Continues<E>(states: seq<System<E>>, acts: seq<Action<E>>,
                               states': seq<System<E>>, acts': seq<Action<E>>) {
    Run(states', acts') && acts <= acts' && states <= states'
  }

  /** Only callers act: the loop thread is between its release and its next step. */
  ghost predicate CallersOnly<E>(n: nat, acts: seq<Action<E>>) {
    forall i :: n <= i < |acts| ==> IsRequest(acts[i])
  }

  /** Some caller never gives up its last keep references to e. */
  ghost predicate Keeps<E>(n: nat, states: seq<System<E>>, e: E, keep: nat) {
    forall i :: n <= i < |states| ==> Held(states[i], e) >= keep
  }

  /** Every caller drops what it owns of e. */
  lemma {:induction false} DropAll<E>(states: seq<System<E>>, acts: seq<Action<E>>, e: E)
    returns (states': seq<System<E>>, acts': seq<Action<E>>)
    requires Run(states, acts)
    ensures Continues(states, acts, states', acts') && CallersOnly(|acts|, acts')
    ensures var s, t := states[|acts|], states'[|acts'|];
            Held(t, e) == 0 && t.pc == s.pc && t.l.evList == s.l.evList && t.l.ops == s.l.ops
    decreases Held(states[|acts|], e)
  {
    var s := states[|acts|];
    if Held(s, e) == 0 {
      states', acts' := states, acts;
    } else {
      RunBooks(states, acts, e);
      WhoOwns(s, e);
      states', acts' := Extend(states, acts, Drop(e));
      states', acts' := DropAll(states', acts', e);
    }
  }

  /** Callers take nothing from the loop. */
  lemma {:induction false} LoopGoesOnOwning<E>(states: seq<System<E>>, acts: seq<Action<E>>, n: nat, e: E)
    requires Run(states, acts) && n <= |acts| && CallersOnly(n, acts) && LoopOwns(states[n].l, e)
    ensures LoopOwns(states[|acts|].l, e)
  {
    if n < |acts| {
      var k := |acts| - 1;
      assert Run(states[..k + 1], acts[..k]);
      LoopGoesOnOwning(states[..k + 1], acts[..k], n, e);
      RunInv(states[..k + 1], acts[..k]);
      assert Next(states[k], acts[k], states[k + 1]);
      RequestQueues(states[k], acts[k]);
    }
  }

  /** The loop thread, past a release that did not free e: whatever callers do, e is still there when
      its count is read, exactly if the loop itself still owns a reference. */
  lemma LoopReadsSafely<E>(states: seq<System<E>>, acts: seq<Action<E>>, e: E)
    requires Run(states, acts) && states[|acts|].pc == Replaying && e in states[|acts|].l.evs
    ensures (forall states': seq<System<E>>, acts' ::
               Continues(states, acts, states', acts') && CallersOnly(|acts|, acts')
               ==> e in states'[|acts'|].l.evs)
            <==> LoopOwns(states[|acts|].l, e)
  {
    if LoopOwns(states[|acts|].l, e) {
      forall states': seq<System<E>>, acts' | Continues(states, acts, states', acts') && CallersOnly(|acts|, acts')
        ensures e in states'[|acts'|].l.evs
      {
        LoopGoesOnOwning(states', acts', |acts|, e);
        RunBooks(states', acts', e);
        WhoOwns(states'[|acts'|], e);
      }
    } else {
      var states', acts' := DropAll(states, acts, e);
      RunBooks(states', acts', e);
      WhoOwns(states'[|acts'|], e);
    }
  }

  /** The loop is told to quit and runs its queue. */
  lemma QuitsAndDrains<E>(states: seq<System<E>>, acts: seq<Action<E>>)
    returns (states': seq<System<E>>, acts': seq<Action<E>>)
    requires Run(states, acts)
    ensures Continues(states, acts, states', acts')
    ensures var t := states'[|acts'|];
            t.l.quited && t.l.ops == [] && t.pc == Idle && t.held == states[|acts|].held
  {
    var s1, a1 := Extend(states, acts, DoQuit);
    states', acts' := LoopAloneCatchesUp(s1, a1);
    SameStates(s1, a1, states', acts');
  }

  /** Any event can be freed once its callers want it gone: they drop it, the loop quits. */
  lemma CanBeFreed<E>(states: seq<System<E>>, acts: seq<Action<E>>, e: E)
    returns (states': seq<System<E>>, acts': seq<Action<E>>)
    requires Run(states, acts)
    ensures Continues(states, acts, states', acts') && e !in states'[|acts'|].l.evs
  {
    var s1, a1 := DropAll(states, acts, e);
    states', acts' := QuitsAndDrains(s1, a1);
    FreedWithLoop(states', acts', e);
  }

  /** A loop that has quit and run its queue keeps nothing alive. */
  lemma FreedWithLoop<E>(states: seq<System<E>>, acts: seq<Action<E>>, e: E)
    requires Run(states, acts)
    requires var s := states[|acts|]; s.l.quited && s.l.ops == [] && s.pc == Idle && Held(s, e) == 0
    ensures e !in states[|acts|].l.evs
  {
    RunBooks(states, acts, e);
    QuitReleasesEverything(states, acts);
    WhoOwns(states[|acts|], e);
  }

  /** A run that makes the same steps goes through the same states. */
  lemma {:induction false} SameStates<E>(states: seq<System<E>>, acts: seq<Action<E>>,
                                         more: seq<System<E>>, moreActs: seq<Action<E>>)
    requires Run(states, acts) && Run(more, moreActs) && acts <= moreActs
    ensures states <= more
    decreases |acts|
  {
    if acts == [] {
      assert states == more[..1];
    } else {
      var k := |acts| - 1;
      assert Run(states[..k + 1], acts[..k]);
      SameStates(states[..k + 1], acts[..k], more, moreActs);
      RunInv(states[..k + 1], acts[..k]);
      assert Next(states[k], acts[k], states[k + 1]) && Next(more[k], moreActs[k], more[k + 1]);
      assert states == states[..k + 1] + [states[k + 1]];
    }
  }

  /** A thread past a drop that was not the last, which still owns keep references: whatever the
      others do, the event is still there when its count is read, exactly if keep is not 0. */
  lemma DropperReadsSafely<E>(states: seq<System<E>>, acts: seq<Action<E>>, e: E, keep: nat)
    requires Run(states, acts) && keep <= Held(states[|acts|], e)
    ensures (forall states': seq<System<E>>, acts' ::
               Continues(states, acts, states', acts') && Keeps(|acts|, states', e, keep)
               ==> e in states'[|acts'|].l.evs)
            <==> keep > 0
  {
    if keep > 0 {
      forall states': seq<System<E>>, acts' | Continues(states, acts, states', acts') && Keeps(|acts|, states', e, keep)
        ensures e in states'[|acts'|].l.evs
      {
        RunBooks(states', acts', e);
        WhoOwns(states'[|acts'|], e);
      }
    } else {
      var states', acts' := CanBeFreed(states, acts, e);
      assert Keeps(|acts|, states', e, keep);
    }
  }

  /** Two callers of one event: the first drops its reference, which is not the last, and before it
      has read the count the second drops the last one. */
  lemma TwoDroppers<E>(e: E) returns (states: seq<System<E>>, acts: seq<Action<E>>)
    ensures Run(states, acts) && acts == [New(e, {EvRead}), Take(e), Drop(e), Drop(e)]
    ensures e in states[3].l.evs && e !in states[4].l.evs
  {
    states, acts := [System(Loop(map[], [], [], map[], false, 0, false), map[], Idle)], [];
    states, acts := Extend(states, acts, New(e, {EvRead}));
    states, acts := Extend(states, acts, Take(e));
    states, acts := Extend(states, acts, Drop(e));
    states, acts := Extend(states, acts, Drop(e));
  }
}
