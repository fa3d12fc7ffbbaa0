/** The network_client and proto_watch objects of src/network_client.c and src/proto_watch.c with
    their reference counts, updated in place. Each method is one critical section or one
    reference-count operation: it is tied to the function of module Lifecycle that runs are made of,
    and says what it means for a caller. The ghost arguments callers and users count the references
    to the client and to the watch that are held by everyone else. */
module NetworkClient {
  import opened Lifecycle

  class Watch {
    var refCount: int
    var killed: bool
    var sched: bool
    var attached: bool
    var finalised: bool
    // what the event loop holds of the watch
    var ops: seq<LoopOp>
    var listed: bool
    var quited: bool
    var quitQueued: bool

    constructor ()
      ensures refCount == 1 && !killed && !sched && !attached && !finalised
      ensures ops == [] && !listed && !quited && !quitQueued
    {
      refCount, killed, sched, attached, finalised := 1, false, false, false, false;
      ops, listed, quited, quitQueued := [], false, false, false;
    }
  }

  class Client {
    var refCount: int
    var killed: bool
    var protoWatch: Watch?
    var finalised: bool
    const created: Watch      // the watch made by init_this
    ghost var kills: nat

    ghost predicate Valid()
      reads this
    {
      protoWatch == null || protoWatch == created
    }

    ghost function View(): Shared
      reads this, created
    {
      Shared(refCount, killed, protoWatch != null, finalised,
             created.refCount, created.killed, created.sched, created.attached, created.finalised,
             created.ops, created.listed, created.quited, created.quitQueued, kills)
    }

    /** Somebody or something still refers to the watch. */
    ghost predicate WatchNeeded(users: nat)
      reads this, created
    {
      users > 0 || protoWatch != null || created.ops != [] || created.listed
    }

    /** obj_new and init_this: the creator is the one caller, and nobody uses the watch yet. */
    constructor ()
      ensures Valid() && fresh(created) && View() == CREATED
      ensures Balanced(View(), 1, 0) && Orderly(View(), 0)
    {
      var w := new Watch();
      refCount, killed, protoWatch, finalised, created, kills := 1, false, w, false, w, 0;
      new;
      refCount := refCount + 1;
    }

    method ClearWatch()
      requires Valid()
      modifies this`protoWatch
      ensures Valid() && protoWatch == null && View() == old(View()).(hasWatch := false)
    {
      protoWatch := null;
    }

    /** The count of the watch goes down by one; whether it was the last is for the caller to see. */
    method DropWatchRef()
      requires Valid()
      modifies created`refCount
      ensures Valid() && View() == old(View()).(wRef := old(View()).wRef - 1)
    {
      created.refCount := created.refCount - 1;
    }

    /** release_proto_watch */
    method ReleaseWatch()
      requires Valid()
      modifies this`protoWatch, created
      ensures Valid() && protoWatch == null && (old(protoWatch) != null ==> created.killed)
      ensures var s := old(View());
              View() == if s.hasWatch then Lifecycle.ReleaseWatch(s.(hasWatch := false)) else s
    {
      if protoWatch != null {
        ClearWatch();
        MarkKilled();
        assert created.killed;
        DropWatchRef();
      }
    }

    /** obj_unref, with finalize_this for the last reference. */
    method DropRef()
      requires Valid()
      modifies this, created
      ensures Valid() && View() == UnrefClient(old(View())) && refCount == old(refCount) - 1
      ensures refCount == 0 ==> finalised && protoWatch == null && (old(protoWatch) != null ==> created.killed)
    {
      refCount := refCount - 1;
      if refCount == 0 {
        finalised := true;
        ReleaseWatch();
      }
    }

    /** A caller gives up its reference: the client goes with its last caller, and not before its
        watch. */
    method Unref(ghost callers: nat, ghost users: nat)
      requires Valid()
      modifies this, created
      ensures Valid() && View() == UnrefClient(old(View())) && refCount == old(refCount) - 1
      ensures refCount == 0 ==> finalised && protoWatch == null && (old(protoWatch) != null ==> created.killed)
      ensures Balanced(old(View()), callers + 1, users) ==>
                Balanced(View(), callers, users) && (finalised <==> callers == 0 && created.finalised)
    {
      ghost var s := View();
      DropRef();
      if Balanced(s, callers + 1, users) {
        UnrefClientBalanced(s, callers, users);
      }
    }

    /** proto_watch_unref, with proto_watch_on_finalize for the last reference: the watch goes when
        nothing refers to it, and takes the client along if no caller is left. */
    method UnrefWatch(ghost callers: nat, ghost users: nat)
      requires Valid()
      modifies this, created
      ensures Valid() && View() == Lifecycle.UnrefWatch(old(View()))
      ensures Balanced(old(View()), callers, users + 1) ==>
                && Balanced(View(), callers, users)
                && (created.finalised <==> !WatchNeeded(users))
                && (finalised <==> callers == 0 && created.finalised)
    {
      ghost var s := View();
      ReleaseWatchRef();
      if Balanced(s, callers, users + 1) {
        UnrefWatchBalanced(s, callers, users);
      }
    }

    /** proto_watch_unref */
    method ReleaseWatchRef()
      requires Valid()
      modifies this, created
      ensures Valid() && View() == Lifecycle.UnrefWatch(old(View()))
    {
      DropWatchRef();
      if created.refCount == 0 {
        created.finalised := true;
        DropRef();
      }
    }

    /** The critical section shared by network_client_send_msg, send_mb and consumable: a sender gets
        a watch that is not finalised and will not be while the sender holds its reference. */
    method RefForSend(ghost callers: nat, ghost users: nat) returns (pw: Watch?)
      requires Valid() && (!killed ==> protoWatch != null)
      modifies created`refCount
      ensures Valid() && (View(), pw != null) == Lifecycle.RefForSend(old(View()))
      ensures if killed then pw == null else pw == created
      ensures Balanced(old(View()), callers, users) ==>
                if pw == null then Balanced(View(), callers, users)
                else Balanced(View(), callers, users + 1) && !pw.finalised
    {
      pw := null;
      if !killed {
        protoWatch.refCount := protoWatch.refCount + 1;
        pw := protoWatch;
      }
    }

    /** The critical section of network_client_self_kill: the first killer takes over the client's
        reference to the watch, and with it the duty to kill. */
    method TakeForKill(ghost callers: nat, ghost users: nat, ghost pending: nat) returns (pw: Watch?)
      requires Valid()
      modifies this
      ensures Valid() && (View(), pw != null) == Lifecycle.TakeForKill(old(View()))
      ensures killed && (pw != null ==> pw == created && !old(killed))
      ensures Balanced(old(View()), callers + 1, users) && Orderly(old(View()), pending) ==>
                && (pw != null <==> !old(killed)) && protoWatch == null && kills == 1
                && Balanced(View(), callers + 1, if pw != null then users + 1 else users)
                && Orderly(View(), if pw != null then pending + 1 else pending)
    {
      pw := null;
      if !killed {
        killed := true;
        pw := protoWatch;
        protoWatch := null;
        kills := kills + 1;
      }
    }

    method PostOp(op: LoopOp)
      requires Valid()
      modifies created`ops, created`refCount
      ensures Valid() && View() == Lifecycle.PostOp(old(View()), op)
    {
      if !created.quited {
        created.ops := created.ops + [op];
        created.refCount := created.refCount + 1;
      }
    }

    /** __proto_watch_kill */
    method MarkKilled()
      requires Valid()
      modifies created
      ensures Valid() && View() == Lifecycle.KillWatch(old(View())) && created.killed
    {
      if !created.killed {
        created.killed := true;
        if created.sched {
          created.sched := false;
          PostOp(RemoveOp);
        }
      }
    }

    /** proto_watch_kill by whoever took the watch: it is off its scheduler, and an open loop will not
        have it once it has run its queue. */
    method KillWatch(ghost callers: nat, ghost users: nat)
      requires Valid()
      modifies created
      ensures Valid() && View() == Lifecycle.KillWatch(old(View())) && created.killed
      ensures created.ops == old(created.ops) +
              if !old(created.killed) && old(created.sched) && !created.quited then [RemoveOp] else []
      ensures Balanced(old(View()), callers, users + 1) ==> Balanced(View(), callers, users + 1)
      ensures Orderly(old(View()), 1) ==>
                Orderly(View(), 0) && (!created.quited ==> !WillList(created.listed, created.ops))
    {
      ghost var s := View();
      MarkKilled();
      if Balanced(s, callers, users + 1) {
        KillBalanced(s, callers, users + 1);
      }
      if Orderly(s, 1) {
        KillOrderly(s);
      }
    }

    /** The unlocked look of __network_client_attach: the caller gets a pointer and no reference. */
    method WatchToAttach() returns (pw: Watch?)
      requires Valid()
      ensures if protoWatch == null then pw == null else pw == created
    {
      pw := protoWatch;
    }

    /** __proto_watch_attach */
    method MarkAttached()
      requires Valid()
      modifies created
      ensures Valid() && View() == AttachWatch(old(View()))
    {
      if created.killed || created.sched {
        return;
      }
      created.sched := true;
      if !created.quited {
        created.attached := true;
        PostOp(AddOp);
      }
    }

    /** proto_watch_attach: a live watch goes to one loop, once; an open loop will then have it. */
    method Attach(ghost callers: nat, ghost users: nat, ghost pending: nat)
      requires Valid()
      modifies created
      ensures Valid() && View() == AttachWatch(old(View()))
      ensures created.sched == (old(created.sched) || !created.killed) && created.killed == old(created.killed)
      ensures created.ops == old(created.ops) +
              if !created.killed && !old(created.sched) && !created.quited then [AddOp] else []
      ensures Balanced(old(View()), callers, users) && !old(created.finalised) ==> Balanced(View(), callers, users)
      ensures Orderly(old(View()), pending) ==>
                && Orderly(View(), pending)
                && (!created.quited && !created.killed ==> WillList(created.listed, created.ops))
    {
      ghost var s := View();
      MarkAttached();
      if Balanced(s, callers, users) && !s.wFinal {
        AttachBalanced(s, callers, users);
      }
      if Orderly(s, pending) {
        AttachOrderly(s, pending);
      }
    }

    /** network_client_self_kill, for a caller that goes on holding its reference to the client. */
    method SelfKill(ghost callers: nat, ghost users: nat, ghost pending: nat)
      requires Valid() && Balanced(View(), callers + 1, users) && Orderly(View(), pending)
      modifies this, created
      ensures Valid() && killed && protoWatch == null && kills == 1
      ensures Balanced(View(), callers + 1, users) && Orderly(View(), pending)
      ensures if old(killed) then View() == old(View()) else created.killed && !created.sched
    {
      var pw := TakeForKill(callers, users, pending);
      if pw != null {
        KillWatch(callers + 1, users);
        ghost var s := View();
        UnrefWatch(callers + 1, users);
        UnrefWatchBalanced(s, callers + 1, users);
        OrderlyFrame(s, View(), 0);
      }
    }

    /** network_client_kill_unref by one of any number of callers, whether the watch is attached or
        not: the client is killed and this caller's reference gone; the watch is killed by the first
        to come, and each object is finalised exactly when nothing refers to it any more. */
    method KillUnref(ghost callers: nat, ghost users: nat, ghost pending: nat)
      requires Valid() && Balanced(View(), callers + 1, users) && Orderly(View(), pending)
      modifies this, created
      ensures Valid() && killed && protoWatch == null && kills == 1
      ensures Balanced(View(), callers, users) && Orderly(View(), pending)
      ensures old(killed) ==> View() == UnrefClient(old(View()))
      ensures !old(killed) ==> created.killed && (!created.quited ==> !WillList(created.listed, created.ops))
      ensures created.finalised <==> !WatchNeeded(users)
      ensures finalised <==> callers == 0 && created.finalised
    {
      SelfKill(callers, users, pending);
      ghost var s := View();
      Unref(callers, users);
      UnrefClientBalanced(s, callers, users);
      OrderlyFrame(s, View(), pending);
    }
  }
}
