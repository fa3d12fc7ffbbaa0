/** What each call on the send side of a watch (src/proto_watch.c) does, answer by answer: how far the
    kernel's answers take it, which of them ends it, and what the caller is told. */
module SendAnswers {
  import opened Base
  import opened SendModel
  import opened SendSystem

  /** The kernel takes some bytes. */
  predicate Takes(a: Answer) {
    a.Sent? && a.n > 0
  }

  /** The kernel would block, was interrupted, or took nothing: not an error of the connection. */
  predicate WouldBlock(a: Answer) {
    match a
    case Sent(n) => n == 0
    case Failed(errno) => errno == EAGAIN || errno == EINTR
  }

  predicate RealError(a: Answer) {
    !Takes(a) && !WouldBlock(a)
  }

  predicate AllTake(script: seq<Answer>) {
    forall i :: 0 <= i < |script| ==> Takes(script[i])
  }

  /** The answers used are the first ones, all but perhaps the last took bytes, and err is what
      ended the call: 0 if none did, EAGAIN if the answers ran out or the last one would block, and
      otherwise the error of the last one. */
  predicate EndsBy(script: seq<Answer>, rest: seq<Answer>, err: int) {
    var used := |script| - |rest|;
    && used >= 0 && rest == script[used..]
    && if err == 0 then AllTake(script[..used])
       else if AllTake(script[..used]) then rest == [] && err == -EAGAIN
       else
         && used > 0 && AllTake(script[..used - 1])
         && (WouldBlock(script[used - 1]) ==> err == -EAGAIN)
         && (RealError(script[used - 1]) ==> err == -(script[used - 1].errno as int))
  }

  lemma LastStops(script: seq<Answer>, n: nat)
    requires 0 < n <= |script| && AllTake(script[..n - 1]) && !AllTake(script[..n])
    ensures !Takes(script[n - 1])
  {
    assert forall i :: 0 <= i < n - 1 ==> script[..n - 1][i] == script[i];
  }

  lemma EndsLater(a: Answer, script: seq<Answer>, rest: seq<Answer>, err: int)
    requires Takes(a) && EndsBy(script, rest, err)
    ensures EndsBy([a] + script, rest, err)
  {
    var used := |script| - |rest|;
    var all := [a] + script;
    assert all[used + 1..] == script[used..];
    assert all[..used + 1] == [a] + script[..used];
    if !AllTake(script[..used]) {
      LastStops(script, used);
      assert all[..used] == [a] + script[..used - 1];
      assert all[used] == script[used - 1] == all[..used + 1][used];
    }
  }

  lemma EndsAtOnce(script: seq<Answer>, err: int)
    requires script != [] && !Takes(script[0])
    requires err == if RealError(script[0]) then -(script[0].errno as int) else -EAGAIN
    ensures EndsBy(script, script[1..], err)
  {
    assert !Takes(script[..1][0]);
  }

  /** The bytes that answers have taken. */
  function Total(script: seq<Answer>): nat {
    if script == [] then 0 else (if script[0].Sent? then script[0].n else 0) + Total(script[1..])
  }

  /** From idx, the answers took the offset to where it is: as far as they go, but not past the end,
      and no answer was used that was not needed. */
  predicate Reaches(size: nat, idx: nat, answers: seq<Answer>, offset: nat, err: int) {
    && offset == Min(size, idx + Total(answers))
    && (err != 0 ==> idx + Total(answers) < size)
    && (err == 0 && answers != [] ==> idx + Total(answers[..|answers| - 1]) < size)
    && (idx == size ==> answers == [])
  }

  lemma ReachesOn(size: nat, idx: nat, a: Answer, answers: seq<Answer>, offset: nat, err: int)
    requires idx < size && Takes(a) && Reaches(size, Min(size, idx + a.n), answers, offset, err)
    ensures Reaches(size, idx, [a] + answers, offset, err)
  {
    var all := [a] + answers;
    assert all[1..] == answers && Total(all) == a.n + Total(answers);
    if answers != [] {
      var fewer := all[..|all| - 1];
      assert fewer[1..] == answers[..|answers| - 1] && Total(fewer) == a.n + Total(fewer[1..]);
    } else {
      assert all[..|all| - 1] == [] && Total([]) == 0;
    }
  }

  lemma {:induction false} DirectReaches(ptr: seq<byte>, idx: nat, wire: seq<byte>, script: seq<Answer>)
    requires idx <= |ptr|
    ensures |WriteDirectly(ptr, idx, wire, script).script| <= |script|
    ensures var d := WriteDirectly(ptr, idx, wire, script);
            Reaches(|ptr|, idx, script[..|script| - |d.script|], d.offset, d.err)
    decreases |script|
  {
    var d := WriteDirectly(ptr, idx, wire, script);
    if idx == |ptr| || script == [] {
      assert script[..0] == [];
    } else if !Takes(script[0]) {
      assert script[..1][1..] == [] && Total(script[..1]) == 0;
    } else {
      var k, rest := Min(script[0].n, |ptr| - idx), script[1..];
      DirectReaches(ptr, idx + k, wire + ptr[idx..idx + k], rest);
      var used := |rest| - |d.script|;
      ReachesOn(|ptr|, idx, script[0], rest[..used], d.offset, d.err);
      assert script[..used + 1] == [script[0]] + rest[..used];
    }
  }

  lemma {:induction false} DirectEnds(ptr: seq<byte>, idx: nat, wire: seq<byte>, script: seq<Answer>)
    requires idx <= |ptr|
    ensures var d := WriteDirectly(ptr, idx, wire, script); EndsBy(script, d.script, d.err)
    decreases |script|
  {
    var d := WriteDirectly(ptr, idx, wire, script);
    if idx == |ptr| || script == [] {
      assert script[..0] == [] && script[0..] == script;
    } else if !Takes(script[0]) {
      EndsAtOnce(script, d.err);
    } else {
      var k, rest := Min(script[0].n, |ptr| - idx), script[1..];
      DirectEnds(ptr, idx + k, wire + ptr[idx..idx + k], rest);
      EndsLater(script[0], rest, d.script, d.err);
      assert script == [script[0]] + rest;
    }
  }

  /** One buffer offered to the kernel: answers are used until the buffer is gone or one of them ends
      the call, which decides the error; and the offset moves by what they took. */
  lemma DirectAnswers(ptr: seq<byte>, idx: nat, wire: seq<byte>, script: seq<Answer>)
    requires idx <= |ptr|
    ensures var d := WriteDirectly(ptr, idx, wire, script);
            && EndsBy(script, d.script, d.err)
            && Reaches(|ptr|, idx, script[..|script| - |d.script|], d.offset, d.err)
  {
    DirectReaches(ptr, idx, wire, script);
    DirectEnds(ptr, idx, wire, script);
  }

  // ----- A write event -----

  /** No block was handed over with an offset past its end. */
  predicate Sane(bs: seq<Block>) {
    forall i :: 0 <= i < |bs| ==> bs[i].offset <= |bs[i].ptr|
  }

  lemma SaneTake(w: Watch)
    requires w.writeBuffer.None? && w.backlog != []
    ensures Held(TakeHead(w)) == Held(w)
  {
  }

  /** A write event uses answers until nothing is left to send or one of them ends it. */
  lemma {:induction false} PendingAnswers(w: Watch, script: seq<Answer>)
    requires Sane(Held(w))
    ensures var r := WritePending(w, script);
            EndsBy(script, r.script, r.err) && (r.err == 0 ==> Held(r.w) == [])
    decreases 2 * |w.backlog| + if w.writeBuffer.Some? then 1 else 0
  {
    if w.writeBuffer.None? {
      if w.backlog == [] {
        assert script[..0] == [] && script[0..] == script;
      } else {
        SaneTake(w);
        PendingAnswers(TakeHead(w), script);
      }
    } else {
      var b := w.writeBuffer.value;
      assert Held(w)[0] == b && Held(w)[1..] == w.backlog;
      DirectAnswers(b.ptr, b.offset, w.wire, script);
      var d := WriteDirectly(b.ptr, b.offset, w.wire, script);
      if d.err == 0 {
        var v := Free(w, b).(writeBuffer := None, wire := d.wire);
        assert Held(v) == w.backlog;
        PendingAnswers(v, d.script);
        var r := WritePending(w, script);
        EndsAfter(script, d.script, r.script, r.err);
      }
    }
  }

  /** A call that used its answers up to rest and went on from there. */
  lemma EndsAfter(script: seq<Answer>, rest: seq<Answer>, last: seq<Answer>, err: int)
    requires EndsBy(script, rest, 0) && EndsBy(rest, last, err)
    ensures EndsBy(script, last, err)
  {
    var used := |script| - |rest|;
    EndsAfterMany(script[..used], rest, last, err);
    assert script == script[..used] + rest;
  }

  lemma {:induction false} EndsAfterMany(first: seq<Answer>, rest: seq<Answer>, last: seq<Answer>, err: int)
    requires AllTake(first) && EndsBy(rest, last, err)
    ensures EndsBy(first + rest, last, err)
  {
    if first == [] {
      assert first + rest == rest;
    } else {
      EndsAfterMany(first[1..], rest, last, err);
      EndsLater(first[0], first[1..] + rest, last, err);
      assert first + rest == [first[0]] + (first[1..] + rest);
    }
  }

  /** A kernel that takes whatever any held block has to offer, as often as there are blocks. */
  predicate Generous(script: seq<Answer>, bs: seq<Block>) {
    && |script| >= |bs|
    && forall i, b :: 0 <= i < |script| && b in bs ==> script[i].Sent? && script[i].n >= |Tail(b)|
  }

  /** A generous kernel takes a block whole with one answer, or with none if nothing of it is left. */
  lemma TakenWhole(b: Block, wire: seq<byte>, script: seq<Answer>)
    requires b.offset <= |b.ptr| && script != [] && script[0].Sent? && script[0].n >= |Tail(b)|
    ensures var d := WriteDirectly(b.ptr, b.offset, wire, script);
            && d.err == 0 && d.wire == wire + Tail(b) && d.offset == |b.ptr|
            && (d.script == script || d.script == script[1..])
  {
    DirectMoves(b.ptr, b.offset, wire, script);
    assert wire + [] == wire;
    if b.offset < |b.ptr| {
      var w1 := wire + b.ptr[b.offset..|b.ptr|];
      assert WriteDirectly(b.ptr, b.offset, wire, script) == WriteDirectly(b.ptr, |b.ptr|, w1, script[1..]);
      assert b.ptr[b.offset..|b.ptr|] == Tail(b);
    }
  }

  lemma FewerGenerous(script: seq<Answer>, rest: seq<Answer>, bs: seq<Block>)
    requires bs != [] && Generous(script, bs) && (rest == script || rest == script[1..])
    ensures Generous(rest, bs[1..])
  {
    forall i, b | 0 <= i < |rest| && b in bs[1..] ensures rest[i].Sent? && rest[i].n >= |Tail(b)| {
      assert b in bs;
      assert rest[i] == script[if rest == script then i else i + 1];
    }
  }

  /** The first held block goes whole, and the rest is a smaller case of the same. */
  lemma BufferDelivers(w: Watch, script: seq<Answer>)
    requires w.writeBuffer.Some? && Sane(Held(w)) && Generous(script, Held(w))
    ensures var b := w.writeBuffer.value;
            var d := WriteDirectly(b.ptr, b.offset, w.wire, script);
            && d.err == 0 && d.wire == w.wire + Tail(b)
            && Sane(w.backlog) && Generous(d.script, w.backlog)
            && WritePending(w, script) == WritePending(BufferGone(w), d.script)
  {
    var b := w.writeBuffer.value;
    assert Held(w)[0] == b && Held(w)[1..] == w.backlog && b in Held(w);
    TakenWhole(b, w.wire, script);
    var d := WriteDirectly(b.ptr, b.offset, w.wire, script);
    FewerGenerous(script, d.script, Held(w));
    assert forall i :: 0 <= i < |w.backlog| ==> w.backlog[i] == Held(w)[i + 1];
  }

  /** The watch when its write buffer has gone whole. */
  function BufferGone(w: Watch): Watch
    requires w.writeBuffer.Some?
  {
    Free(w, w.writeBuffer.value).(writeBuffer := None, wire := w.wire + Tail(w.writeBuffer.value))
  }

  lemma Regrouped(a: seq<byte>, b: seq<byte>, c: seq<byte>)
    ensures (a + b) + c == a + (b + c)
  {
  }

  lemma FirstId(b: Block, bs: seq<Block>)
    ensures Ids([b] + bs) == [b.id] + Ids(bs)
  {
  }

  lemma NothingLost(w: Watch)
    requires w.writeBuffer.Some?
    ensures var v := BufferGone(w);
            && Held(v) == w.backlog && v.wire + Rest(v) == w.wire + Rest(w)
            && v.freed + Ids(Held(v)) == w.freed + Ids(Held(w))
  {
    var b := w.writeBuffer.value;
    Regrouped(w.wire, Tail(b), Stream(w.backlog));
    assert Rest(BufferGone(w)) == Stream(w.backlog);
    FirstId(b, w.backlog);
    assert (w.freed + [b.id]) + Ids(w.backlog) == w.freed + ([b.id] + Ids(w.backlog));
  }

  /** A write event under a generous kernel sends everything there is, in order, frees every block in
      that order, and gives up the interest. */
  lemma {:induction false} PendingDelivers(w: Watch, script: seq<Answer>)
    requires Sane(Held(w)) && Generous(script, Held(w))
    ensures var r := WritePending(w, script);
            && r.err == 0 && Held(r.w) == [] && r.w.wire == w.wire + Rest(w) && !r.w.interest
            && r.w.freed == w.freed + Ids(Held(w))
    decreases 2 * |w.backlog| + if w.writeBuffer.Some? then 1 else 0
  {
    if w.writeBuffer.None? {
      if w.backlog == [] {
        assert w.wire + Rest(w) == w.wire && Ids(Held(w)) == [];
      } else {
        SaneTake(w);
        PendingDelivers(TakeHead(w), script);
        assert Rest(TakeHead(w)) == Rest(w);
      }
    } else {
      BufferDelivers(w, script);
      NothingLost(w);
      var b := w.writeBuffer.value;
      PendingDelivers(BufferGone(w), WriteDirectly(b.ptr, b.offset, w.wire, script).script);
    }
  }

  lemma DirectGrows(b: Block, wire: seq<byte>, script: seq<Answer>)
    requires b.offset < |b.ptr| && script != [] && Takes(script[0])
    ensures |WriteDirectly(b.ptr, b.offset, wire, script).wire| > |wire|
  {
    var k := Min(script[0].n, |b.ptr| - b.offset);
    DirectMoves(b.ptr, b.offset + k, wire + b.ptr[b.offset..b.offset + k], script[1..]);
  }

  /** If there is something to send and the kernel's first answer takes bytes, bytes move. */
  lemma {:induction false} PendingMoves(w: Watch, script: seq<Answer>)
    requires Sane(Held(w)) && Rest(w) != [] && script != [] && Takes(script[0])
    ensures |WritePending(w, script).w.wire| > |w.wire|
    decreases 2 * |w.backlog| + if w.writeBuffer.Some? then 1 else 0
  {
    if w.writeBuffer.None? {
      SaneTake(w);
      PendingMoves(TakeHead(w), script);
    } else {
      var b := w.writeBuffer.value;
      assert Held(w)[0] == b && Held(w)[1..] == w.backlog;
      var d := WriteDirectly(b.ptr, b.offset, w.wire, script);
      var v := Free(w, b).(writeBuffer := None, wire := d.wire);
      if b.offset < |b.ptr| {
        DirectGrows(b, w.wire, script);
        PendingGrows(v, d.script);
      } else {
        assert Held(v) == w.backlog && d.script == script && Rest(v) == Rest(w) && d.wire == w.wire;
        PendingMoves(v, script);
      }
    }
  }

  lemma {:induction false} PendingGrows(w: Watch, script: seq<Answer>)
    ensures w.wire <= WritePending(w, script).w.wire
    decreases 2 * |w.backlog| + if w.writeBuffer.Some? then 1 else 0
  {
    if w.writeBuffer.None? {
      if w.backlog != [] {
        PendingGrows(TakeHead(w), script);
      }
    } else {
      var b := w.writeBuffer.value;
      DirectMoves(b.ptr, b.offset, w.wire, script);
      var d := WriteDirectly(b.ptr, b.offset, w.wire, script);
      if d.err == 0 {
        PendingGrows(Free(w, b).(writeBuffer := None, wire := d.wire), d.script);
      }
    }
  }

  /** In every run, a write event on a connected watch under a generous kernel puts everything
      outstanding on the wire, leaves nothing held, and gives up the interest. */
  lemma WriteEventDelivers(states: seq<System>, acts: seq<Action>, script: seq<Answer>)
    requires Run(states, acts) && Enabled(states[|acts|], Writable(script)) && !states[|acts|].w.connecting
    requires Sane(Held(states[|acts|].w)) && Generous(script, Held(states[|acts|].w))
    ensures var s, t := states[|acts|], Step(states[|acts|], Writable(script));
            && Held(t.w) == [] && t.w.wire == s.w.wire + Rest(s.w) == Stream(Carried(s)) && !t.w.interest
            && t.w.freed == s.w.freed + Ids(Held(s.w)) && t.w.backlogSize == 0
  {
    var s := states[|acts|];
    PendingDelivers(s.w, script);
    StreamIntegrity(states, acts);
    RunInv(states, acts);
    StepInv(s, Writable(script));
  }

  // ----- A write -----

  /** On a live, connected watch that holds nothing a block is offered to the kernel at once. It is
      accepted as long as no answer is a real error: sent whole and freed, or else kept as the write
      buffer with the caller still to add its interest. With a real error it is freed and the caller
      told which. */
  lemma FastPathOutcome(w: Watch, mb: Block, script: seq<Answer>)
    requires !w.killed && !w.connecting && Held(w) == [] && mb.offset <= |mb.ptr|
    ensures |WriteMb(w, mb, script).script| <= |script|
    ensures var r := WriteMb(w, mb, script);
            var used := |script| - |r.script|;
            var sent := Min(|mb.ptr|, mb.offset + Total(script[..used]));
            && r.script == script[used..] && mb.offset <= sent <= |mb.ptr|
            && r.w.wire == w.wire + mb.ptr[mb.offset..sent]
            && (sent == |mb.ptr| ==>
                 && AllTake(script[..used]) && r.err == 0 && !r.pending
                 && r.w == w.(wire := r.w.wire, freed := w.freed + [mb.id]))
            && (sent < |mb.ptr| ==>
                 if used > 0 && RealError(script[used - 1]) then
                   && r.err == -(script[used - 1].errno as int) && !r.pending
                   && r.w == w.(wire := r.w.wire, freed := w.freed + [mb.id])
                 else
                   && (AllTake(script[..used]) ==> used == |script|)
                   && r.err == 0 && r.pending && r.w == w.(wire := r.w.wire, writeBuffer := Some(mb.(offset := sent))))
  {
    DirectMoves(mb.ptr, mb.offset, w.wire, script);
    DirectAnswers(mb.ptr, mb.offset, w.wire, script);
    var d := WriteDirectly(mb.ptr, mb.offset, w.wire, script);
    var used := |script| - |d.script|;
    if d.err != 0 && !AllTake(script[..used]) {
      LastStops(script, used);
    } else if used > 0 {
      assert Takes(script[..used][used - 1]);
    }
  }

  /** A block whose offset lies past its end is never offered: a write frees it, and a write event
      that meets it stops there. */
  lemma PastTheEnd(w: Watch, mb: Block, script: seq<Answer>)
    requires mb.offset > |mb.ptr|
    ensures !w.killed && !w.connecting && Held(w) == [] ==>
              WriteMb(w, mb, script) == Written(w.(freed := w.freed + [mb.id]), script, -EINVAL, false)
    ensures w.writeBuffer == Some(mb) ==> WritePending(w, script) == Result(w, script, -EINVAL)
  {
  }

  /** The undroppable blocks of a list, in order. */
  function Undroppable(bs: seq<Block>): seq<Block> {
    if bs == [] then [] else (if bs[0].droppable then [] else [bs[0]]) + Undroppable(bs[1..])
  }

  function Droppable(bs: seq<Block>): seq<Block> {
    if bs == [] then [] else (if bs[0].droppable then [bs[0]] else []) + Droppable(bs[1..])
  }

  /** Up to the first droppable block that is still in the window, at position n, the scan keeps the
      undroppable blocks and drops the others; from there on it keeps everything. */
  lemma {:induction false} TrimSplitsAt(bs: seq<Block>, seqNo: uint32, window: uint32, n: nat)
    requires n <= |bs| && (n < |bs| ==> bs[n].droppable && Age(bs[n], seqNo) <= window)
    requires forall i :: 0 <= i < n && bs[i].droppable ==> Age(bs[i], seqNo) > window
    ensures var t := Trim(bs, seqNo, window);
            t.kept == Undroppable(bs[..n]) + bs[n..] && t.dropped == Droppable(bs[..n])
  {
    if n > 0 {
      TrimSplitsAt(bs[1..], seqNo, window, n - 1);
      assert bs[..n][1..] == bs[1..][..n - 1] && bs[1..][n - 1..] == bs[n..];
    }
  }

  /** A block is as old as the number of sequence numbers that have been given out since its own, also
      when they have wrapped in between. */
  lemma AgeCounts(b: Block, since: uint32)
    ensures Age(b, Wrap(b.seqNo + since)) == since
  {
  }

  /** n is where the scan for a new block would stop: at the first droppable block in the window, or at
      the end; at the very beginning if the watch has no window. */
  predicate StopsAt(w: Watch, seqNo: uint32, n: nat) {
    && n <= |w.backlog|
    && if w.windowSize == 0 then n == 0
       else
         && (n < |w.backlog| ==> w.backlog[n].droppable && Age(w.backlog[n], seqNo) <= w.windowSize)
         && forall i :: 0 <= i < n && w.backlog[i].droppable ==> Age(w.backlog[i], seqNo) > w.windowSize
  }

  /** What trimming leaves: undroppable blocks up to there, and everything from there on. */
  lemma TrimOutcome(w: Watch, seqNo: uint32, n: nat)
    requires Accounted(w) && StopsAt(w, seqNo, n)
    ensures var t := AdjustWindow(w, seqNo);
            && t.backlog == Undroppable(w.backlog[..n]) + w.backlog[n..]
            && t.freed == w.freed + Ids(Droppable(w.backlog[..n]))
            && t.backlogSize == SumSizes(t.backlog) <= MAX_BACKLOG_SIZE
            && t == w.(backlog := t.backlog, backlogSize := t.backlogSize, freed := t.freed)
  {
    if w.windowSize == 0 {
      assert w.backlog[..0] == [] && w.backlog[0..] == w.backlog && Ids([]) == [];
      assert [] + w.backlog == w.backlog && w.freed + [] == w.freed;
    } else {
      TrimSplitsAt(w.backlog, seqNo, w.windowSize, n);
      TrimDropsStale(w.backlog, seqNo, w.windowSize);
      UncountSum(w.backlogSize, Dropped(w, seqNo));
    }
  }

  /** A write on a live watch that is connecting or holds something leaves wire and kernel alone,
      trims the backlog if the watch has a window, and then queues the block exactly if it fits the
      room there is then. */
  lemma QueueingOutcome(w: Watch, mb: Block, script: seq<Answer>, n: nat)
    requires !w.killed && (w.connecting || Held(w) != []) && Accounted(w) && |mb.ptr| + MAX_BACKLOG_SIZE < U32
    requires StopsAt(w, mb.seqNo, n)
    ensures var r := WriteMb(w, mb, script);
            var kept, dropped := Undroppable(w.backlog[..n]) + w.backlog[n..], Droppable(w.backlog[..n]);
            && r.script == script
            && r.w == w.(backlog := r.w.backlog, backlogSize := r.w.backlogSize, freed := r.w.freed)
            && r.w.backlogSize == SumSizes(r.w.backlog)
            && if SumSizes(kept) + |mb.ptr| <= MAX_BACKLOG_SIZE then
                 r.err == 0 && r.pending && r.w.backlog == kept + [mb] && r.w.freed == w.freed + Ids(dropped)
               else
                 r.err == -EAGAIN && !r.pending && r.w.backlog == kept && r.w.freed == w.freed + Ids(dropped) + [mb.id]
  {
    TrimOutcome(w, mb.seqNo, n);
    var t := AdjustWindow(w, mb.seqNo);
    assert WriteMb(w, mb, script) == Enqueue(t, mb, script);
    EnqueueCases(t, mb, script);
    SumSizesAppend(t.backlog, [mb]);
  }

  /** A write on a watch that is killed frees the block, and one on a watch that is connecting never
      reaches the kernel. */
  lemma ClosedOutcome(w: Watch, mb: Block, script: seq<Answer>)
    ensures var r := WriteMb(w, mb, script);
            && (w.killed ==> r == Written(w.(freed := w.freed + [mb.id]), script, -EKILLED, false))
            && (!w.killed && w.connecting ==>
                  r.w.wire == w.wire && r.script == script && r.w.writeBuffer == w.writeBuffer && r.w.connecting)
  {
  }

  // ----- Asking for room -----

  lemma WriteableIs(w: Watch, size: uint32)
    requires Accounted(w)
    ensures size <= MAX_BACKLOG_SIZE ==> (Writeable(w, size) == 0 <==> SumSizes(w.backlog) + size <= MAX_BACKLOG_SIZE)
    ensures size > MAX_BACKLOG_SIZE ==> Writeable(w, size) == 0
    ensures Writeable(w, size) == 0 || Writeable(w, size) == -EAGAIN
  {
  }

  lemma AccountedInEveryRun(states: seq<System>, acts: seq<Action>)
    requires Run(states, acts) && !states[|acts|].finalised
    ensures Accounted(states[|acts|].w)
  {
    RunInv(states, acts);
  }

  /** In every reachable state, asking about any size within the limit gives 0 exactly if a block of
      that size fits beside what is queued; a larger size always gives 0. */
  lemma WriteableExactly(states: seq<System>, acts: seq<Action>, size: uint32)
    requires Run(states, acts) && !states[|acts|].finalised
    ensures var w := states[|acts|].w;
            Writeable(w, size) ==
            if size > MAX_BACKLOG_SIZE || SumSizes(w.backlog) + size <= MAX_BACKLOG_SIZE then 0 else -EAGAIN
  {
    AccountedInEveryRun(states, acts);
    WriteableIs(states[|acts|].w, size);
  }
}
