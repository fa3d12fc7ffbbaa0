/** Runs of the send queue of src/proto_watch.c: writers, the loop thread's write events, kills
    and finalisation in any order, with histories of what was accepted and what was dropped. */
module SendSystem {
  import opened Base
  import opened SendModel

  /** passed: every block handed to write_mb. accepted: those for which it returned 0. carried: the
      accepted blocks and, in its place among them, the part that got through of each block whose
      direct write then failed for good; torn: the ids of those. dropped: ids of blocks removed by
      window trimming. adders: writers past their unlock that have still to add EV_WRITE. */
  datatype System = System(
    w: Watch, passed: seq<Block>, accepted: seq<Block>, carried: seq<Block>, torn: set<nat>, dropped: set<nat>,
    adders: nat, finalised: bool)

  datatype Action =
    | Write(mb: Block, script: seq<Answer>)
    | AddInterest
    | Writable(script: seq<Answer>)
    | Connect
    | SetWindow(size: uint32)
    | Kill
    | Finish

  ghost predicate Init(s: System) {
    && s.w == Watch(false, false, s.w.windowSize, None, [], 0, false, [], [])
    && s.passed == s.accepted == s.carried == [] && s.torn == s.dropped == {} && s.adders == 0 && !s.finalised
  }

  /** A block is handed over once, and its size leaves room for 32-bit accounting. Everything but
      the finalisation happens on a watch that is still referenced. */
  predicate Enabled(s: System, a: Action) {
    match a
    case Write(mb, _) => !s.finalised && mb.id !in Ids(s.passed) && |mb.ptr| + MAX_BACKLOG_SIZE < U32
    case AddInterest => s.adders > 0
    case Writable(_) => !s.finalised && !s.w.killed
    case Connect => !s.finalised && !s.w.killed
    case SetWindow(size) => !s.finalised && size > 0
    case Kill => !s.finalised
    case Finish => !s.finalised && s.adders == 0
  }

  /** A direct write that fails for good after bytes of the block are on the wire. */
  predicate Tears(w: Watch, mb: Block, script: seq<Answer>) {
    var d := WriteDirectly(mb.ptr, mb.offset, w.wire, script);
    FastPath(w) && d.err != 0 && d.err != -EAGAIN && d.offset > mb.offset
  }

  /** The block cut off where the direct write came to. */
  function Fragment(w: Watch, mb: Block, script: seq<Answer>): Block {
    var d := WriteDirectly(mb.ptr, mb.offset, w.wire, script);
    if d.offset <= |mb.ptr| then mb.(ptr := mb.ptr[..d.offset]) else mb
  }

  /** What a write adds to what wire and watch carry. */
  function Adds(w: Watch, mb: Block, script: seq<Answer>): seq<Block> {
    if WriteMb(w, mb, script).err == 0 then [mb]
    else if Tears(w, mb, script) then [Fragment(w, mb, script)]
    else []
  }

  function DroppedBy(w: Watch, mb: Block): seq<Block> {
    if w.killed || FastPath(w) then [] else Dropped(w, mb.seqNo)
  }

  function IdSet(bs: seq<Block>): set<nat> {
    set b | b in bs :: b.id
  }

  function Step(s: System, a: Action): System
    requires Enabled(s, a)
  {
    match a
    case Write(mb, script) =>
      var r := WriteMb(s.w, mb, script);
      s.(w := r.w, passed := s.passed + [mb],
         accepted := if r.err == 0 then s.accepted + [mb] else s.accepted,
         carried := s.carried + Adds(s.w, mb, script),
         torn := if Tears(s.w, mb, script) then s.torn + {mb.id} else s.torn,
         dropped := s.dropped + IdSet(DroppedBy(s.w, mb)),
         adders := if r.pending then s.adders + 1 else s.adders)
    case AddInterest => s.(w := s.w.(interest := true), adders := s.adders - 1)
    case Writable(script) =>
      s.(w := if s.w.connecting then s.w.(connecting := false) else WritePending(s.w, script).w)
    case Connect => s.(w := s.w.(connecting := true, interest := true))
    case SetWindow(size) => s.(w := s.w.(windowSize := size))
    case Kill => s.(w := s.w.(killed := true))
    case Finish => s.(w := Finalise(s.w), finalised := true)
  }

  // ----- Accepted minus dropped -----

  function Keep(bs: seq<Block>, dropped: set<nat>): seq<Block> {
    if bs == [] then []
    else if bs[0].id in dropped then Keep(bs[1..], dropped)
    else [bs[0]] + Keep(bs[1..], dropped)
  }

  function Kept(s: System): seq<Block> {
    Keep(s.accepted, s.dropped)
  }

  function Carried(s: System): seq<Block> {
    Keep(s.carried, s.dropped)
  }

  predicate DistinctIds(bs: seq<Block>) {
    forall i, j :: 0 <= i < j < |bs| ==> bs[i].id != bs[j].id
  }

  lemma {:induction false} KeepAppend(a: seq<Block>, b: seq<Block>, d: set<nat>)
    ensures Keep(a + b, d) == Keep(a, d) + Keep(b, d)
  {
    if a == [] {
      assert a + b == b;
    } else {
      assert (a + b)[1..] == a[1..] + b;
      KeepAppend(a[1..], b, d);
    }
  }

  lemma {:induction false} KeepTwice(bs: seq<Block>, d: set<nat>, e: set<nat>)
    ensures Keep(bs, d + e) == Keep(Keep(bs, d), e)
  {
    if bs != [] {
      KeepTwice(bs[1..], d, e);
      if bs[0].id !in d {
        assert ([bs[0]] + Keep(bs[1..], d))[1..] == Keep(bs[1..], d);
      }
    }
  }

  lemma {:induction false} KeepAll(bs: seq<Block>, d: set<nat>)
    requires forall b :: b in bs ==> b.id !in d
    ensures Keep(bs, d) == bs
  {
    if bs != [] {
      KeepAll(bs[1..], d);
    }
  }

  /** Keep selects, so it preserves distinctness and membership. */
  lemma {:induction false} KeepSelects(bs: seq<Block>, d: set<nat>)
    requires DistinctIds(bs)
    ensures DistinctIds(Keep(bs, d))
    ensures forall b :: b in Keep(bs, d) <==> b in bs && b.id !in d
  {
    if bs != [] {
      KeepSelects(bs[1..], d);
      assert bs == [bs[0]] + bs[1..];
      forall b | b in bs[1..] ensures b.id != bs[0].id {
        var j :| 0 < j < |bs| && bs[j] == b;
      }
    }
  }

  lemma {:induction false} TrimDropsStale(bs: seq<Block>, seqNo: uint32, window: uint32)
    ensures var t := Trim(bs, seqNo, window);
            && SumSizes(bs) == SumSizes(t.kept) + SumSizes(t.dropped)
            && forall b :: b in t.dropped ==> b in bs && b.droppable && Age(b, seqNo) > window
  {
    if bs != [] {
      TrimDropsStale(bs[1..], seqNo, window);
    }
  }

  lemma IdsAppend(a: seq<Block>, b: seq<Block>)
    ensures Ids(a + b) == Ids(a) + Ids(b)
    ensures multiset(Ids(a + b)) == multiset(Ids(a)) + multiset(Ids(b))
  {
    assert Ids(a + b) == Ids(a) + Ids(b);
  }

  lemma {:induction false} TrimIds(bs: seq<Block>, seqNo: uint32, window: uint32)
    ensures var t := Trim(bs, seqNo, window);
            multiset(Ids(bs)) == multiset(Ids(t.kept)) + multiset(Ids(t.dropped))
  {
    var t := Trim(bs, seqNo, window);
    if bs == [] || (bs[0].droppable && Age(bs[0], seqNo) <= window) {
      assert Ids(t.dropped) == [] && t.kept == bs;
    } else {
      TrimIds(bs[1..], seqNo, window);
      var rest := Trim(bs[1..], seqNo, window);
      assert bs == [bs[0]] + bs[1..];
      IdsAppend([bs[0]], bs[1..]);
      IdsAppend([bs[0]], if bs[0].droppable then rest.dropped else rest.kept);
    }
  }

  /** Trimming is keeping: what it leaves is the backlog without the ids it dropped. */
  lemma {:induction false} TrimIsKeep(bs: seq<Block>, seqNo: uint32, window: uint32)
    requires DistinctIds(bs)
    ensures var t := Trim(bs, seqNo, window);
            t.kept == Keep(bs, IdSet(t.dropped))
  {
    var t := Trim(bs, seqNo, window);
    if bs == [] || (bs[0].droppable && Age(bs[0], seqNo) <= window) {
      KeepAll(bs, {});
      assert IdSet(t.dropped) == {};
    } else {
      assert forall j :: 0 < j < |bs| ==> bs[j].id != bs[0].id;
      var rest := Trim(bs[1..], seqNo, window);
      TrimDropsStale(bs[1..], seqNo, window);
      TrimIsKeep(bs[1..], seqNo, window);
      if bs[0].droppable {
        assert IdSet(t.dropped) == {bs[0].id} + IdSet(rest.dropped);
        KeepTwice(bs[1..], {bs[0].id}, IdSet(rest.dropped));
        KeepAll(bs[1..], {bs[0].id});
      } else {
        assert bs[0].id !in IdSet(rest.dropped);
      }
    }
  }

  // ----- Invariants -----

  /** b is k with some more of it sent. */
  predicate Resumed(k: Block, b: Block) {
    && b == k.(offset := b.offset)
    && k.offset <= b.offset && (b.offset <= |b.ptr| || b.offset == k.offset)
  }

  /** What the watch holds is the end of the kept blocks: the backlog as it was accepted, and in
      front of it the block being sent. */
  ghost predicate TailOf(kept: seq<Block>, w: Watch) {
    var n := |kept| - |w.backlog|;
    && n >= (if w.writeBuffer.Some? then 1 else 0)
    && kept[n..] == w.backlog
    && (w.writeBuffer.Some? ==> Resumed(kept[n - 1], w.writeBuffer.value))
  }

  /** The ids of freed and held blocks, with multiplicity. */
  ghost function Owned(w: Watch): multiset<nat> {
    multiset(w.freed) + multiset(Ids(Held(w)))
  }

  /** b is p, or for a torn block the part of p up to some byte that has been sent. */
  predicate WholeOrPart(b: Block, p: Block, torn: bool) {
    if torn then b == p.(ptr := b.ptr) && p.offset < |b.ptr| < |p.ptr| && b.ptr == p.ptr[..|b.ptr|]
    else b == p
  }

  /** Everything carried has been handed over, whole or in part. */
  ghost predicate Origins(s: System) {
    forall b :: b in s.carried ==> exists p :: p in s.passed && WholeOrPart(b, p, b.id in s.torn)
  }

  /** Each block carried once; torn ones accounted for and out of the backlog; only droppable ones
      dropped. */
  ghost predicate Ledger(s: System) {
    && DistinctIds(s.passed) && DistinctIds(s.carried)
    && s.torn <= IdSet(s.carried) && s.dropped <= IdSet(s.carried) && s.torn !! s.dropped
    && (forall b :: b in s.carried && b.id in s.dropped ==> b.droppable)
    && s.accepted == Keep(s.carried, s.torn)
  }

  ghost predicate History(s: System) {
    && Origins(s) && Ledger(s)
    && (forall b :: b in s.w.backlog ==> b.id !in s.torn)
    && Owned(s.w) == multiset(Ids(s.passed))
    && (s.finalised ==> Held(s.w) == [])
  }

  /** No lost write interest. */
  ghost predicate Interested(s: System) {
    !s.w.killed && Held(s.w) != [] ==> s.w.interest || s.adders > 0
  }

  // ----- Write events -----

  /** Moving the head of the backlog to the write buffer changes where it is held, not what. */
  lemma TakeHeadKeeps(w: Watch, kept: seq<Block>)
    requires w.writeBuffer.None? && w.backlog != [] && Accounted(w) && TailOf(kept, w)
    ensures var t := TakeHead(w);
            && Accounted(t) && TailOf(kept, t) && Held(t) == Held(w) && Rest(t) == Rest(w)
            && t == w.(writeBuffer := t.writeBuffer, backlog := t.backlog, backlogSize := t.backlogSize)
  {
    var n := |kept| - |w.backlog|;
    assert kept[n] == w.backlog[0] && kept[n + 1..] == kept[n..][1..];
    assert w.backlogSize - |w.backlog[0].ptr| == SumSizes(w.backlog[1..]);
  }

  lemma Regroup(a: seq<byte>, x: seq<byte>, y: seq<byte>, z: seq<byte>)
    ensures (a + x) + (y + z) == a + ((x + y) + z)
  {
  }

  /** The bytes that leave a block are those that reach the wire, whatever else is to be sent. */
  lemma SendMoves(b: Block, wire: seq<byte>, script: seq<Answer>, rest: seq<byte>)
    ensures var d := WriteDirectly(b.ptr, b.offset, wire, script);
            && d.wire + (Tail(b.(offset := d.offset)) + rest) == wire + (Tail(b) + rest)
            && (d.err == 0 ==> Tail(b.(offset := d.offset)) == [])
            && Resumed(b, b.(offset := d.offset))
  {
    DirectMoves(b.ptr, b.offset, wire, script);
    var d := WriteDirectly(b.ptr, b.offset, wire, script);
    if b.offset <= |b.ptr| {
      var sent, tail := b.ptr[b.offset..d.offset], b.ptr[d.offset..];
      assert Tail(b) == sent + tail;
      Regroup(wire, sent, tail, rest);
    }
  }

  /** Sending from the write buffer moves bytes from it to the wire. */
  lemma SendKeeps(w: Watch, script: seq<Answer>, kept: seq<Block>)
    requires w.writeBuffer.Some? && TailOf(kept, w)
    ensures var b := w.writeBuffer.value;
            var d := WriteDirectly(b.ptr, b.offset, w.wire, script);
            var t := w.(writeBuffer := Some(b.(offset := d.offset)), wire := d.wire);
            && TailOf(kept, t) && Owned(t) == Owned(w) && d.wire + Rest(t) == w.wire + Rest(w)
            && (d.err == 0 ==> Tail(t.writeBuffer.value) == [])
  {
    var b := w.writeBuffer.value;
    SendMoves(b, w.wire, script, Stream(w.backlog));
    var d := WriteDirectly(b.ptr, b.offset, w.wire, script);
    var t := w.(writeBuffer := Some(b.(offset := d.offset)), wire := d.wire);
    assert Ids(Held(t)) == Ids(Held(w));
  }

  /** A finished write buffer is freed and cleared. */
  lemma FreeKeeps(w: Watch, kept: seq<Block>)
    requires w.writeBuffer.Some? && TailOf(kept, w) && Tail(w.writeBuffer.value) == []
    ensures var t := Free(w, w.writeBuffer.value).(writeBuffer := None);
            TailOf(kept, t) && Owned(t) == Owned(w) && Rest(t) == Rest(w)
  {
    var b := w.writeBuffer.value;
    IdsAppend([b], w.backlog);
    assert Ids([b]) == [b.id] && [] + w.backlog == w.backlog;
  }

  /** A write event sends a prefix of what is outstanding, in order, and gives up the interest in
      writing only when nothing is left. */
  lemma {:induction false} PendingKeeps(w: Watch, script: seq<Answer>, kept: seq<Block>)
    requires Accounted(w) && TailOf(kept, w)
    ensures var r := WritePending(w, script);
            && Accounted(r.w) && TailOf(kept, r.w) && Owned(r.w) == Owned(w)
            && r.w.wire + Rest(r.w) == w.wire + Rest(w)
            && (r.err == 0 ==> Held(r.w) == [])
            && r.w.interest == (w.interest && r.err != 0)
            && r.w.killed == w.killed && r.w.connecting == w.connecting && r.w.windowSize == w.windowSize
    decreases 2 * |w.backlog| + if w.writeBuffer.Some? then 1 else 0
  {
    if w.writeBuffer.None? {
      if w.backlog != [] {
        TakeHeadKeeps(w, kept);
        PendingKeeps(TakeHead(w), script, kept);
      }
    } else {
      var b := w.writeBuffer.value;
      SendKeeps(w, script, kept);
      var d := WriteDirectly(b.ptr, b.offset, w.wire, script);
      var t := w.(writeBuffer := Some(b.(offset := d.offset)), wire := d.wire);
      if d.err == 0 {
        FreeKeeps(t, kept);
        PendingKeeps(Free(w, b).(writeBuffer := None, wire := d.wire), d.script, kept);
      }
    }
  }

  // ----- Writes -----

  /** The rest of the block being sent. */
  function Current(w: Watch): seq<byte> {
    if w.writeBuffer.Some? then Tail(w.writeBuffer.value) else []
  }

  /** The kept blocks are those in front of the backlog, then the backlog; the write buffer is the
      last one in front. */
  ghost predicate Splits(kept: seq<Block>, front: seq<Block>, w: Watch) {
    && kept == front + w.backlog
    && (w.writeBuffer.Some? ==> front != [] && Resumed(front[|front| - 1], w.writeBuffer.value))
  }

  /** The stream equation with the backlog left out. */
  ghost predicate FlowsTo(w: Watch, front: seq<Block>) {
    w.wire + Current(w) == Stream(front)
  }

  lemma CancelSuffix(a: seq<byte>, b: seq<byte>, y: seq<byte>, z: seq<byte>)
    ensures a + (b + z) == y + z <==> a + b == y
  {
    assert a + (b + z) == (a + b) + z;
    var x := a + b;
    assert x == (x + z)[..|x|] && y == (y + z)[..|y|];
    assert |x + z| == |x| + |z| && |y + z| == |y| + |z|;
  }

  /** The stream equation does not depend on the backlog. */
  lemma FlowForms(kept: seq<Block>, front: seq<Block>, w: Watch)
    requires Splits(kept, front, w)
    ensures FlowsTo(w, front) <==> w.wire + Rest(w) == Stream(kept)
  {
    StreamAppend(front, w.backlog);
    CancelSuffix(w.wire, Current(w), Stream(front), Stream(w.backlog));
  }

  /** The front of kept blocks that end with what the watch holds. */
  lemma SplitsTail(kept: seq<Block>, w: Watch)
    requires TailOf(kept, w)
    ensures Splits(kept, kept[..|kept| - |w.backlog|], w)
  {
    var n := |kept| - |w.backlog|;
    assert kept == kept[..n] + kept[n..];
  }

  lemma TailSplits(kept: seq<Block>, front: seq<Block>, w: Watch)
    requires Splits(kept, front, w)
    ensures TailOf(kept, w)
  {
    assert kept[|front|..] == w.backlog;
  }

  lemma UncountSum(size: uint32, bs: seq<Block>)
    requires SumSizes(bs) <= size
    ensures Uncount(size, bs) == size - SumSizes(bs)
    decreases |bs|
  {
    if bs != [] {
      UncountSum(size - |bs[0].ptr|, bs[1..]);
    }
  }

  lemma DistinctParts(front: seq<Block>, back: seq<Block>)
    requires DistinctIds(front + back)
    ensures DistinctIds(back)
    ensures forall b, c :: b in front && c in back ==> b.id != c.id
  {
    var kept := front + back;
    assert forall i :: 0 <= i < |front| ==> kept[i] == front[i];
    assert forall j :: 0 <= j < |back| ==> kept[|front| + j] == back[j];
    forall b, c | b in front && c in back ensures b.id != c.id {
      var i :| 0 <= i < |front| && front[i] == b;
      var j :| 0 <= j < |back| && back[j] == c;
      assert kept[i].id != kept[|front| + j].id;
    }
  }

  lemma OwnedAfterTrim(w: Watch, t: Watch, drop: seq<Block>)
    requires t.freed == w.freed + Ids(drop) && t.writeBuffer == w.writeBuffer
    requires multiset(Ids(w.backlog)) == multiset(Ids(t.backlog)) + multiset(Ids(drop))
    ensures Owned(t) == Owned(w)
  {
    var b := if w.writeBuffer.Some? then [w.writeBuffer.value] else [];
    IdsAppend(b, w.backlog);
    IdsAppend(b, t.backlog);
  }

  /** Trimming drops whole stale blocks out of the backlog and touches nothing in front of it. */
  lemma AdjustKeeps(w: Watch, seqNo: uint32, kept: seq<Block>, front: seq<Block>)
    requires Accounted(w) && Splits(kept, front, w) && DistinctIds(kept)
    ensures var t, drop := AdjustWindow(w, seqNo), Dropped(w, seqNo);
            && Accounted(t) && t.backlogSize <= w.backlogSize && Owned(t) == Owned(w)
            && Splits(Keep(kept, IdSet(drop)), front, t)
            && (forall b :: b in drop ==> b in kept && b.droppable)
            && t == w.(backlog := t.backlog, backlogSize := t.backlogSize, freed := t.freed)
  {
    var t, drop := AdjustWindow(w, seqNo), Dropped(w, seqNo);
    var d := IdSet(drop);
    if w.windowSize == 0 {
      assert d == {};
      KeepAll(kept, d);
    } else {
      TrimDropsStale(w.backlog, seqNo, w.windowSize);
      TrimIds(w.backlog, seqNo, w.windowSize);
      DistinctParts(front, w.backlog);
      TrimIsKeep(w.backlog, seqNo, w.windowSize);
      UncountSum(w.backlogSize, drop);
      KeepAll(front, d);
      KeepAppend(front, w.backlog, d);
      OwnedAfterTrim(w, t, drop);
    }
  }

  lemma FreeOwned(w: Watch, mb: Block)
    ensures Owned(Free(w, mb)) == Owned(w) + multiset{mb.id}
  {
  }

  lemma QueueOwned(w: Watch, mb: Block)
    ensures Owned(w.(backlog := w.backlog + [mb])) == Owned(w) + multiset{mb.id}
  {
    assert Held(w.(backlog := w.backlog + [mb])) == Held(w) + [mb];
    IdsAppend(Held(w), [mb]);
    assert Ids([mb]) == [mb.id];
  }

  /** Queueing a block at the end of the backlog. */
  lemma QueueKeeps(t: Watch, mb: Block, kept: seq<Block>, front: seq<Block>)
    requires Accounted(t) && Splits(kept, front, t) && t.backlogSize + |mb.ptr| <= MAX_BACKLOG_SIZE
    ensures var q := t.(backlog := t.backlog + [mb], backlogSize := t.backlogSize + |mb.ptr|);
            && Accounted(q) && Splits(kept + [mb], front, q) && Owned(q) == Owned(t) + multiset{mb.id}
  {
    SumSizesAppend(t.backlog, [mb]);
    QueueOwned(t, mb);
    assert (front + t.backlog) + [mb] == front + (t.backlog + [mb]);
  }

  lemma Joins(a: seq<byte>, x: seq<byte>, y: seq<byte>, xy: seq<byte>)
    requires |xy| == |x| + |y| && xy[..|x|] == x && xy[|x|..] == y
    ensures (a + x) + y == a + xy
  {
    assert xy == x + y;
  }

  lemma KeepNothing(kept: seq<Block>)
    ensures IdSet([]) == {} && Keep(kept, {}) == kept
  {
    KeepAll(kept, {});
  }

  /** The watch holds the end of the kept blocks and the wire carries what is in front of it. */
  ghost predicate Carries(w: Watch, kept: seq<Block>, front: seq<Block>) {
    Accounted(w) && Splits(kept, front, w) && FlowsTo(w, front)
  }

  /** A block sent whole on the fast path. */
  lemma FastSent(w: Watch, mb: Block, wire: seq<byte>, kept: seq<Block>)
    requires FastPath(w) && Carries(w, kept, kept)
    requires wire == w.wire + Tail(mb)
    ensures Carries(w.(wire := wire), kept + [mb], kept + [mb])
  {
    StreamSnoc(kept, mb);
    assert w.wire + [] == w.wire && wire + [] == wire;
  }

  lemma BufferedFlow(wire: seq<byte>, mb: Block, offset: nat, kept: seq<Block>)
    requires mb.offset <= offset <= |mb.ptr|
    ensures (wire + mb.ptr[mb.offset..offset]) + Tail(mb.(offset := offset)) == wire + Tail(mb)
    ensures Stream(kept + [mb]) == Stream(kept) + Tail(mb)
  {
    StreamSnoc(kept, mb);
    Joins(wire, mb.ptr[mb.offset..offset], Tail(mb.(offset := offset)), Tail(mb));
  }

  lemma BufferedOwned(w: Watch, b: Block)
    requires w.writeBuffer.None? && w.backlog == []
    ensures Owned(w.(writeBuffer := Some(b))) == Owned(w) + multiset{b.id}
  {
    assert [b] + [] == [b] && Ids([b]) == [b.id] && Ids(Held(w)) == [];
  }

  /** A block partly sent on the fast path becomes the write buffer. */
  lemma FastBuffered(w: Watch, mb: Block, offset: nat, kept: seq<Block>)
    requires FastPath(w) && Carries(w, kept, kept)
    requires mb.offset <= offset <= |mb.ptr|
    ensures var t := w.(writeBuffer := Some(mb.(offset := offset)), wire := w.wire + mb.ptr[mb.offset..offset]);
            Carries(t, kept + [mb], kept + [mb]) && Owned(t) == Owned(w) + multiset{mb.id}
  {
    BufferedFlow(w.wire, mb, offset, kept);
    BufferedOwned(w.(wire := w.wire + mb.ptr[mb.offset..offset]), mb.(offset := offset));
    assert w.wire + [] == w.wire;
  }

  /** A block that failed for good is freed, and what got through is carried as a block of its own. */
  lemma FastFailed(w: Watch, mb: Block, script: seq<Answer>, kept: seq<Block>)
    requires FastPath(w) && Carries(w, kept, kept)
    requires WriteFast(w, mb, script).err != 0
    ensures var r, k := WriteFast(w, mb, script), kept + if Tears(w, mb, script) then [Fragment(w, mb, script)] else [];
            Carries(r.w, k, k)
    ensures Tears(w, mb, script) ==> WholeOrPart(Fragment(w, mb, script), mb, true)
  {
    DirectMoves(mb.ptr, mb.offset, w.wire, script);
    var d := WriteDirectly(mb.ptr, mb.offset, w.wire, script);
    if Tears(w, mb, script) {
      FastSent(w, Fragment(w, mb, script), d.wire, kept);
    } else {
      assert d.wire == w.wire && kept + [] == kept;
    }
  }

  /** A block offered on the fast path is sent whole, becomes the write buffer, or is freed; only
      in the last case can bytes of it be on the wire that no accepted block accounts for. */
  lemma FastEffect(w: Watch, mb: Block, script: seq<Answer>, kept: seq<Block>)
    requires FastPath(w) && Carries(w, kept, kept)
    ensures var r, k := WriteFast(w, mb, script), kept + Adds(w, mb, script);
            Owned(r.w) == Owned(w) + multiset{mb.id} && Carries(r.w, k, k)
  {
    DirectMoves(mb.ptr, mb.offset, w.wire, script);
    var d := WriteDirectly(mb.ptr, mb.offset, w.wire, script);
    if d.err == 0 {
      FastSent(w, mb, d.wire, kept);
      FreeOwned(w.(wire := d.wire), mb);
    } else if d.err == -EAGAIN {
      FastBuffered(w, mb, d.offset, kept);
    } else {
      FreeOwned(w.(wire := d.wire), mb);
      FastFailed(w, mb, script, kept);
    }
  }

  /** A block with room in the backlog is queued. */
  lemma QueuedCarries(t: Watch, mb: Block, kept: seq<Block>, front: seq<Block>)
    requires Carries(t, kept, front) && t.backlogSize + |mb.ptr| <= MAX_BACKLOG_SIZE
    ensures var q := t.(backlog := t.backlog + [mb], backlogSize := t.backlogSize + |mb.ptr|);
            Carries(q, kept + [mb], front) && Owned(q) == Owned(t) + multiset{mb.id}
  {
    QueueKeeps(t, mb, kept, front);
  }

  lemma RefusedCarries(t: Watch, mb: Block, kept: seq<Block>, front: seq<Block>)
    requires Carries(t, kept, front)
    ensures Carries(Free(t, mb), kept, front) && Owned(Free(t, mb)) == Owned(t) + multiset{mb.id}
  {
    FreeOwned(t, mb);
  }

  lemma EnqueueCases(t: Watch, mb: Block, script: seq<Answer>)
    requires t.backlogSize <= MAX_BACKLOG_SIZE && |mb.ptr| + MAX_BACKLOG_SIZE < U32
    ensures Enqueue(t, mb, script) ==
      if t.backlogSize + |mb.ptr| > MAX_BACKLOG_SIZE then Written(Free(t, mb), script, -EAGAIN, false)
      else Written(t.(backlog := t.backlog + [mb], backlogSize := t.backlogSize + |mb.ptr|), script, 0, true)
  {
  }

  lemma EnqueueEffect(t: Watch, mb: Block, script: seq<Answer>, kept: seq<Block>, front: seq<Block>)
    requires Carries(t, kept, front) && |mb.ptr| + MAX_BACKLOG_SIZE < U32
    ensures var r := Enqueue(t, mb, script);
            && Owned(r.w) == Owned(t) + multiset{mb.id}
            && Carries(r.w, if r.err == 0 then kept + [mb] else kept, front)
  {
    EnqueueCases(t, mb, script);
    if t.backlogSize + |mb.ptr| <= MAX_BACKLOG_SIZE {
      QueuedCarries(t, mb, kept, front);
    } else {
      RefusedCarries(t, mb, kept, front);
    }
  }

  /** A write that is not on the fast path trims the backlog and then queues or refuses. */
  lemma QueuedEffect(w: Watch, mb: Block, script: seq<Answer>, kept: seq<Block>, front: seq<Block>)
    requires |mb.ptr| + MAX_BACKLOG_SIZE < U32
    requires Carries(w, kept, front) && DistinctIds(kept)
    ensures var r, drop := Enqueue(AdjustWindow(w, mb.seqNo), mb, script), Dropped(w, mb.seqNo);
            var k := Keep(kept, IdSet(drop));
            && Owned(r.w) == Owned(w) + multiset{mb.id}
            && (forall b :: b in drop ==> b in kept && b.droppable)
            && Carries(r.w, if r.err == 0 then k + [mb] else k, front)
  {
    AdjustKeeps(w, mb.seqNo, kept, front);
    var t, k := AdjustWindow(w, mb.seqNo), Keep(kept, IdSet(Dropped(w, mb.seqNo)));
    assert Carries(t, k, front);
    EnqueueEffect(t, mb, script, k, front);
  }

  // ----- Runs keep the invariant -----

  /** The carried blocks in front of the backlog. */
  ghost function Front(s: System): seq<Block>
    requires |s.w.backlog| <= |Carried(s)|
  {
    Carried(s)[..|Carried(s)| - |s.w.backlog|]
  }

  ghost predicate Flow(s: System) {
    |s.w.backlog| <= |Carried(s)| && Carries(s.w, Carried(s), Front(s))
  }

  ghost predicate Inv(s: System) {
    && (!s.finalised ==> Flow(s))
    && History(s) && Interested(s)
  }

  lemma InitInv(s: System)
    requires Init(s)
    ensures Inv(s)
  {
    assert Carried(s) == [] && Held(s.w) == [] && Ids([]) == [];
    assert s.w.wire + [] == s.w.wire;
  }

  lemma FlowFrom(s: System, front: seq<Block>)
    requires Carries(s.w, Carried(s), front)
    ensures Flow(s)
  {
    assert Carried(s)[..|front|] == front;
  }

  /** A block that is not on the fast path is added whole or not at all. */
  lemma AddsWhole(w: Watch, mb: Block, script: seq<Answer>)
    ensures !FastPath(w) ==> Adds(w, mb, script) == if WriteMb(w, mb, script).err == 0 then [mb] else []
    ensures forall b :: b in Adds(w, mb, script) ==> b.id == mb.id && b.droppable == mb.droppable
    ensures |Adds(w, mb, script)| <= 1 && (Tears(w, mb, script) ==> WriteMb(w, mb, script).err != 0)
  {
  }

  /** The carried blocks after a write that dropped the ids d. */
  lemma CarriedAfterWrite(s: System, a: Action, d: set<nat>)
    requires Enabled(s, a) && a.Write? && d == IdSet(DroppedBy(s.w, a.mb))
    requires a.mb.id !in s.dropped + d
    ensures Carried(Step(s, a)) == Keep(Carried(s), d) + Adds(s.w, a.mb, a.script)
  {
    var added := Adds(s.w, a.mb, a.script);
    AddsWhole(s.w, a.mb, a.script);
    KeepTwice(s.carried, s.dropped, d);
    KeepAppend(s.carried, added, s.dropped + d);
    KeepAll(added, s.dropped + d);
  }

  lemma QueueingEffect(w: Watch, mb: Block, script: seq<Answer>, kept: seq<Block>, front: seq<Block>)
    requires !w.killed && !FastPath(w) && |mb.ptr| + MAX_BACKLOG_SIZE < U32
    requires Carries(w, kept, front) && DistinctIds(kept)
    ensures var r, drop := WriteMb(w, mb, script), Dropped(w, mb.seqNo);
            && Owned(r.w) == Owned(w) + multiset{mb.id}
            && Carries(r.w, Keep(kept, IdSet(drop)) + Adds(w, mb, script), front)
  {
    QueuedEffect(w, mb, script, kept, front);
    AddsWhole(w, mb, script);
    var k := Keep(kept, IdSet(Dropped(w, mb.seqNo)));
    assert k + [] == k;
  }

  /** Trimming drops droppable blocks of the backlog. */
  lemma DropsFromBacklog(w: Watch, mb: Block)
    ensures forall b :: b in DroppedBy(w, mb) ==> b in w.backlog && b.droppable
  {
    TrimDropsStale(w.backlog, mb.seqNo, w.windowSize);
  }

  /** The effect of a write on the watch and on what is carried, whichever branch it takes. */
  lemma WriteEffect(s: System, mb: Block, script: seq<Answer>)
    requires Flow(s) && History(s) && Enabled(s, Write(mb, script))
    ensures var r := WriteMb(s.w, mb, script);
            var k := Keep(Carried(s), IdSet(DroppedBy(s.w, mb))) + Adds(s.w, mb, script);
            Owned(r.w) == Owned(s.w) + multiset{mb.id} && Carries(r.w, k, if FastPath(s.w) then k else Front(s))
  {
    var kept := Carried(s);
    if s.w.killed {
      KeepNothing(kept);
      AddsWhole(s.w, mb, script);
      assert kept + [] == kept;
      RefusedCarries(s.w, mb, kept, Front(s));
    } else if FastPath(s.w) {
      KeepNothing(kept);
      assert Front(s) == kept;
      FastEffect(s.w, mb, script, kept);
    } else {
      KeepSelects(s.carried, s.dropped);
      QueueingEffect(s.w, mb, script, kept, Front(s));
    }
  }

  /** Blocks carried or dropped have been handed over, so a new block's id is none of theirs. */
  lemma NewId(s: System, mb: Block)
    requires History(s) && mb.id !in Ids(s.passed)
    ensures mb.id !in IdSet(s.carried) && mb.id !in s.dropped && mb.id !in s.torn
  {
    IdsAreIdSet(s.passed);
    forall b | b in s.carried ensures b.id != mb.id {
      var p :| p in s.passed && WholeOrPart(b, p, b.id in s.torn);
    }
  }

  /** A block of the backlog is a carried one. */
  lemma BacklogCarried(s: System)
    requires Flow(s) && History(s)
    ensures forall b :: b in s.w.backlog ==> b in s.carried && b.id !in s.dropped
  {
    KeepSelects(s.carried, s.dropped);
    assert forall b :: b in s.w.backlog ==> b in Carried(s);
  }

  lemma WriteFlow(s: System, mb: Block, script: seq<Answer>)
    requires Flow(s) && History(s) && Enabled(s, Write(mb, script))
    ensures Flow(Step(s, Write(mb, script)))
  {
    var d := IdSet(DroppedBy(s.w, mb));
    WriteEffect(s, mb, script);
    NewId(s, mb);
    BacklogCarried(s);
    DropsFromBacklog(s.w, mb);
    CarriedAfterWrite(s, Write(mb, script), d);
    var k := Keep(Carried(s), d) + Adds(s.w, mb, script);
    FlowFrom(Step(s, Write(mb, script)), if FastPath(s.w) then k else Front(s));
  }

  lemma IdsAreIdSet(bs: seq<Block>)
    ensures forall x :: x in Ids(bs) <==> x in IdSet(bs)
  {
    forall x | x in IdSet(bs) ensures x in Ids(bs) {
      var b :| b in bs && b.id == x;
      var i :| 0 <= i < |bs| && bs[i] == b;
      assert Ids(bs)[i] == x;
    }
  }

  lemma FreshAppend(bs: seq<Block>, mb: Block)
    requires DistinctIds(bs) && mb.id !in IdSet(bs)
    ensures DistinctIds(bs + [mb]) && IdSet(bs + [mb]) == IdSet(bs) + {mb.id}
  {
    forall i | 0 <= i < |bs| ensures bs[i].id != mb.id {
      assert bs[i] in bs;
    }
    forall b | b in bs + [mb] ensures b in bs || b == mb {
    }
    assert mb in bs + [mb];
  }

  lemma SameId(bs: seq<Block>, b: Block, c: Block)
    requires DistinctIds(bs) && b in bs && c in bs && b.id == c.id
    ensures b == c
  {
  }

  lemma FreshAppends(bs: seq<Block>, added: seq<Block>, id: nat)
    requires DistinctIds(bs) && id !in IdSet(bs) && |added| <= 1 && forall b :: b in added ==> b.id == id
    ensures DistinctIds(bs + added) && IdSet(bs + added) == IdSet(bs) + IdSet(added)
    ensures forall b :: b in bs + added <==> b in bs || b in added
  {
    if added == [] {
      assert bs + added == bs;
    } else {
      FreshAppend(bs, added[0]);
      assert added == [added[0]];
    }
  }

  /** Only droppable blocks of the backlog are dropped. */
  lemma WriteDrops(s: System, mb: Block, drop: seq<Block>)
    requires Flow(s) && History(s)
    requires forall b :: b in drop ==> b in s.w.backlog && b.droppable
    ensures IdSet(drop) <= IdSet(s.carried) && IdSet(drop) !! s.torn
    ensures forall b :: b in s.carried && b.id in s.dropped + IdSet(drop) ==> b.droppable
  {
    BacklogCarried(s);
    forall b | b in s.carried && b.id in IdSet(drop) ensures b.droppable {
      var c :| c in drop && c.id == b.id;
      SameId(s.carried, b, c);
    }
  }

  /** What a write leaves queued was queued before or is the new block itself. */
  lemma WriteQueues(w: Watch, mb: Block, script: seq<Answer>)
    ensures var r := WriteMb(w, mb, script);
            forall b :: b in r.w.backlog ==> b in w.backlog || (b == mb && r.err == 0)
  {
    if !w.killed && !FastPath(w) && w.windowSize != 0 {
      TrimKeepsSome(w.backlog, mb.seqNo, w.windowSize);
    }
  }

  lemma {:induction false} TrimKeepsSome(bs: seq<Block>, seqNo: uint32, window: uint32)
    ensures forall b :: b in Trim(bs, seqNo, window).kept ==> b in bs
  {
    if bs != [] {
      TrimKeepsSome(bs[1..], seqNo, window);
    }
  }

  lemma WriteOrigins(s: System, mb: Block, script: seq<Answer>)
    requires Flow(s) && History(s) && Enabled(s, Write(mb, script))
    ensures Origins(Step(s, Write(mb, script)))
  {
    var t := Step(s, Write(mb, script));
    NewId(s, mb);
    AddsWhole(s.w, mb, script);
    forall b | b in t.carried ensures exists p :: p in t.passed && WholeOrPart(b, p, b.id in t.torn) {
      if b in s.carried {
        var p :| p in s.passed && WholeOrPart(b, p, b.id in s.torn);
        assert b.id != mb.id && p in t.passed;
      } else {
        assert b in Adds(s.w, mb, script) && mb in t.passed;
        if Tears(s.w, mb, script) {
          assert Front(s) == Carried(s);
          FastFailed(s.w, mb, script, Carried(s));
        }
      }
    }
  }

  /** What was accepted is what is carried without the torn parts. */
  lemma WriteAccepts(s: System, mb: Block, script: seq<Answer>)
    requires History(s) && Enabled(s, Write(mb, script))
    ensures var t := Step(s, Write(mb, script)); t.accepted == Keep(t.carried, t.torn)
  {
    var t, added := Step(s, Write(mb, script)), Adds(s.w, mb, script);
    NewId(s, mb);
    AddsWhole(s.w, mb, script);
    KeepAppend(s.carried, added, t.torn);
    if Tears(s.w, mb, script) {
      KeepTwice(s.carried, s.torn, {mb.id});
      KeepSelects(s.carried, s.torn);
      KeepAll(s.accepted, {mb.id});
      assert Keep(added, t.torn) == [];
      assert s.accepted + [] == s.accepted;
    } else {
      KeepAll(added, t.torn);
      assert added == [] ==> s.accepted + added == s.accepted;
    }
  }

  lemma WriteLedger(s: System, mb: Block, script: seq<Answer>)
    requires Flow(s) && History(s) && Enabled(s, Write(mb, script))
    ensures Ledger(Step(s, Write(mb, script)))
  {
    NewId(s, mb);
    IdsAreIdSet(s.passed);
    FreshAppend(s.passed, mb);
    AddsWhole(s.w, mb, script);
    FreshAppends(s.carried, Adds(s.w, mb, script), mb.id);
    DropsFromBacklog(s.w, mb);
    WriteDrops(s, mb, DroppedBy(s.w, mb));
    WriteAccepts(s, mb, script);
  }

  lemma WriteHistory(s: System, mb: Block, script: seq<Answer>)
    requires Flow(s) && History(s) && Enabled(s, Write(mb, script))
    ensures History(Step(s, Write(mb, script)))
  {
    WriteEffect(s, mb, script);
    IdsAppend(s.passed, [mb]);
    assert Ids([mb]) == [mb.id];
    NewId(s, mb);
    AddsWhole(s.w, mb, script);
    WriteQueues(s.w, mb, script);
    WriteOrigins(s, mb, script);
    WriteLedger(s, mb, script);
  }

  /** A write leaves something to send only with a pending interest, an older one, or on a watch
      that had something to send before. */
  lemma WriteInterest(s: System, mb: Block, script: seq<Answer>)
    requires Interested(s) && Enabled(s, Write(mb, script))
    ensures Interested(Step(s, Write(mb, script)))
  {
    var w := s.w;
    if !w.killed && !FastPath(w) && Held(w) == [] {
      assert w.backlog == [] && w.writeBuffer.None?;
      assert AdjustWindow(w, mb.seqNo).backlog == [];
    }
  }

  /** A write event queues nothing. */
  lemma {:induction false} PendingQueues(w: Watch, script: seq<Answer>)
    ensures forall b :: b in WritePending(w, script).w.backlog ==> b in w.backlog
    decreases 2 * |w.backlog| + if w.writeBuffer.Some? then 1 else 0
  {
    if w.writeBuffer.None? {
      if w.backlog != [] {
        PendingQueues(TakeHead(w), script);
      }
    } else {
      var b := w.writeBuffer.value;
      var d := WriteDirectly(b.ptr, b.offset, w.wire, script);
      if d.err == 0 {
        PendingQueues(Free(w, b).(writeBuffer := None, wire := d.wire), d.script);
      }
    }
  }

  lemma PendingFlow(s: System, t: System, script: seq<Answer>)
    requires Flow(s) && t == s.(w := WritePending(s.w, script).w)
    ensures Flow(t) && Owned(t.w) == Owned(s.w) && t.w.killed == s.w.killed
    ensures t.w.interest || Held(t.w) == [] || !s.w.interest
  {
    var kept := Carried(s);
    TailSplits(kept, Front(s), s.w);
    PendingKeeps(s.w, script, kept);
    SplitsTail(kept, t.w);
    FlowForms(kept, Front(s), s.w);
    FlowForms(kept, Front(t), t.w);
    FlowFrom(t, Front(t));
  }

  lemma WritableInv(s: System, script: seq<Answer>)
    requires Inv(s) && Enabled(s, Writable(script))
    ensures Inv(Step(s, Writable(script)))
  {
    var t := Step(s, Writable(script));
    if s.w.connecting {
      FlagsInv(s, t);
    } else {
      PendingFlow(s, t, script);
      PendingQueues(s.w, script);
      PendingHolds(s.w, script);
    }
  }

  lemma {:induction false} PendingHolds(w: Watch, script: seq<Answer>)
    ensures Held(WritePending(w, script).w) != [] ==> Held(w) != []
    decreases 2 * |w.backlog| + if w.writeBuffer.Some? then 1 else 0
  {
    if w.writeBuffer.None? && w.backlog == [] {
      assert Held(WritePending(w, script).w) == Held(w);
    }
  }

  lemma FinaliseOwned(w: Watch)
    ensures Owned(Finalise(w)) == Owned(w) && Held(Finalise(w)) == []
  {
    var b := if w.writeBuffer.Some? then [w.writeBuffer.value] else [];
    IdsAppend(b, w.backlog);
    assert Ids(b) == if w.writeBuffer.Some? then [w.writeBuffer.value.id] else [];
    assert Ids([]) == [];
  }

  /** Steps that change only flags of the watch. */
  lemma FlagsInv(s: System, t: System)
    requires Inv(s) && Interested(t)
    requires t == s.(w := t.w, adders := t.adders)
    requires t.w == s.w.(killed := t.w.killed, connecting := t.w.connecting,
                         windowSize := t.w.windowSize, interest := t.w.interest)
    ensures Inv(t)
  {
    if !s.finalised {
      FlowFrom(t, Front(s));
    }
  }

  lemma StepInv(s: System, a: Action)
    requires Inv(s) && Enabled(s, a)
    ensures Inv(Step(s, a))
  {
    match a {
      case Write(mb, script) =>
        WriteFlow(s, mb, script);
        WriteHistory(s, mb, script);
        WriteInterest(s, mb, script);
      case Writable(script) => WritableInv(s, script);
      case Finish => FinaliseOwned(s.w);
      case _ => FlagsInv(s, Step(s, a));
    }
  }

  // ----- What holds in every run -----

  ghost predicate Run(states: seq<System>, acts: seq<Action>) {
    && |states| == |acts| + 1
    && Init(states[0])
    && forall i :: 0 <= i < |acts| ==> Enabled(states[i], acts[i]) && states[i + 1] == Step(states[i], acts[i])
  }

  lemma RunInv(states: seq<System>, acts: seq<Action>)
    requires Run(states, acts)
    ensures Inv(states[|acts|])
  {
    InitInv(states[0]);
    forall i | 0 <= i < |acts| && Inv(states[i]) ensures Inv(states[i + 1]) {
      StepInv(states[i], acts[i]);
    }
    AlongRun(i => 0 <= i < |states| && Inv(states[i]), |acts|);
  }

  /** Leaving out blocks with something to send makes a stream shorter. */
  lemma {:induction false} KeepShortens(bs: seq<Block>, out: set<nat>)
    requires forall b :: b in bs && b.id in out ==> Tail(b) != []
    ensures |Stream(Keep(bs, out))| <= |Stream(bs)|
    ensures |Stream(Keep(bs, out))| == |Stream(bs)| ==> forall b :: b in bs ==> b.id !in out
  {
    if bs != [] {
      KeepShortens(bs[1..], out);
      if bs[0].id !in out {
        assert ([bs[0]] + Keep(bs[1..], out))[1..] == Keep(bs[1..], out);
      }
    }
  }

  lemma KeptIsCarriedUntorn(s: System)
    requires Ledger(s)
    ensures Kept(s) == Keep(Carried(s), s.torn)
  {
    KeepTwice(s.carried, s.dropped, s.torn);
    KeepTwice(s.carried, s.torn, s.dropped);
    assert s.dropped + s.torn == s.torn + s.dropped;
  }

  lemma TornIsCarried(s: System)
    requires Origins(s) && Ledger(s)
    ensures forall b :: b in Carried(s) && b.id in s.torn ==> Tail(b) != []
    ensures s.torn != {} ==> exists b :: b in Carried(s) && b.id in s.torn
  {
    KeepSelects(s.carried, s.dropped);
    if s.torn != {} {
      var id :| id in s.torn;
      var b :| b in s.carried && b.id == id;
      assert b in Carried(s);
    }
  }

  /** The accepted blocks carry the stream exactly when no block was torn. */
  lemma IntactIffNothingTorn(s: System)
    requires Origins(s) && Ledger(s)
    ensures Stream(Carried(s)) == Stream(Kept(s)) <==> s.torn == {}
  {
    KeptIsCarriedUntorn(s);
    TornIsCarried(s);
    if s.torn == {} {
      KeepAll(Carried(s), {});
    } else {
      KeepShortens(Carried(s), s.torn);
    }
  }

  /** Stream integrity. Until finalisation the wire followed by what the watch still has to send is
      the stream of what is carried, in order, without the dropped blocks: whole accepted blocks
      and the parts of torn ones. It is the stream of the accepted blocks exactly while no block
      has been torn. */
  lemma StreamIntegrity(states: seq<System>, acts: seq<Action>)
    requires Run(states, acts)
    ensures var s := states[|acts|];
            && s.accepted == Keep(s.carried, s.torn) && Origins(s)
            && (!s.finalised ==>
                 && s.w.wire + Rest(s.w) == Stream(Carried(s))
                 && (s.w.wire + Rest(s.w) == Stream(Kept(s)) <==> s.torn == {}))
  {
    RunInv(states, acts);
    var s := states[|acts|];
    if !s.finalised {
      FlowForms(Carried(s), Front(s), s.w);
      IntactIffNothingTorn(s);
    }
  }

  // ----- When a write can tear -----

  /** What a writer can see beforehand: the block will be queued, or has less than two bytes to send. */
  predicate CannotTear(w: Watch, mb: Block) {
    !FastPath(w) || |Tail(mb)| < 2
  }

  /** A block of two bytes or more can be torn on the fast path, and no other block. */
  lemma TearsExactly(w: Watch, mb: Block)
    ensures (forall script :: !Tears(w, mb, script)) <==> CannotTear(w, mb)
  {
    if CannotTear(w, mb) {
      forall script ensures !Tears(w, mb, script) {
        DirectMoves(mb.ptr, mb.offset, w.wire, script);
      }
    } else {
      OneByteThrough(w, mb);
    }
  }

  /** The kernel takes one byte, and then reports a broken pipe (32). */
  lemma OneByteThrough(w: Watch, mb: Block)
    requires !CannotTear(w, mb)
    ensures Tears(w, mb, [Sent(1), Failed(32)])
  {
    var script := [Sent(1), Failed(32)];
    var wire := w.wire + mb.ptr[mb.offset..mb.offset + 1];
    assert script[1..] == [Failed(32)];
    assert WriteDirectly(mb.ptr, mb.offset + 1, wire, script[1..]).err == -32;
    assert WriteDirectly(mb.ptr, mb.offset, w.wire, script) == WriteDirectly(mb.ptr, mb.offset + 1, wire, script[1..]);
  }

  /** A run in which every write cannot tear leaves an intact stream. */
  lemma IntactWithoutTearing(states: seq<System>, acts: seq<Action>)
    requires Run(states, acts)
    requires forall i :: 0 <= i < |acts| && acts[i].Write? ==> CannotTear(states[i].w, acts[i].mb)
    ensures var s := states[|acts|];
            s.torn == {} && (!s.finalised ==> s.w.wire + Rest(s.w) == Stream(Kept(s)))
  {
    forall i | 0 <= i < |acts| && states[i].torn == {} ensures states[i + 1].torn == {} {
      assert states[i + 1] == Step(states[i], acts[i]);
      if acts[i].Write? {
        TearsExactly(states[i].w, acts[i].mb);
      }
    }
    AlongRun(i => 0 <= i < |states| && states[i].torn == {}, |acts|);
    StreamIntegrity(states, acts);
  }

  lemma SurvivesUnlessTorn(states: seq<System>, acts: seq<Action>, mb: Block, script: seq<Answer>)
    requires Run(states, acts) && Enabled(states[|acts|], Write(mb, script)) && states[|acts|].torn == {}
    ensures var t := Step(states[|acts|], Write(mb, script));
            t.w.wire + Rest(t.w) == Stream(Kept(t)) <==> !Tears(states[|acts|].w, mb, script)
  {
    var s, a := states[|acts|], Write(mb, script);
    var t := Step(s, a);
    assert Run(states + [t], acts + [a]);
    StreamIntegrity(states + [t], acts + [a]);
    assert (states + [t])[|acts + [a]|] == t;
    assert mb.id in t.torn <==> Tears(s.w, mb, script);
  }

  /** The stream of the accepted blocks is sure to survive a write, whatever the kernel answers,
      exactly when the write cannot tear. */
  lemma StreamSurvivesWrite(states: seq<System>, acts: seq<Action>, mb: Block)
    requires Run(states, acts) && Enabled(states[|acts|], Write(mb, [])) && states[|acts|].torn == {}
    ensures var s := states[|acts|];
            (forall script :: var t := Step(s, Write(mb, script)); t.w.wire + Rest(t.w) == Stream(Kept(t)))
            <==> CannotTear(s.w, mb)
  {
    var s := states[|acts|];
    TearsExactly(s.w, mb);
    forall script
      ensures var t := Step(s, Write(mb, script));
              t.w.wire + Rest(t.w) == Stream(Kept(t)) <==> !Tears(s.w, mb, script)
    {
      SurvivesUnlessTorn(states, acts, mb, script);
    }
    if !CannotTear(s.w, mb) {
      OneByteThrough(s.w, mb);
      var t := Step(s, Write(mb, [Sent(1), Failed(32)]));
      assert t.w.wire + Rest(t.w) != Stream(Kept(t));
    }
  }

  /** A run in which a direct write gets one byte of two through and then meets a broken pipe (32):
      the block is refused and freed, and its byte stays on the wire. */
  lemma TornByDirectWrite() returns (states: seq<System>, acts: seq<Action>)
    ensures Run(states, acts)
    ensures var s := states[|acts|];
            && s.torn == {0} && !s.w.killed && s.accepted == [] && Held(s.w) == []
            && s.w.wire + Rest(s.w) == [1] && Stream(Kept(s)) == []
  {
    var mb := Block(0, [1, 2], 0, false, 0);
    var script := [Sent(1), Failed(32)];
    var w := Watch(false, false, 1, None, [], 0, false, [], []);
    var s := System(w, [], [], [], {}, {}, 0, false);
    var a := Write(mb, script);
    assert script[1..] == [Failed(32)] && mb.ptr[0..1] == [1];
    assert WriteDirectly(mb.ptr, 1, [1], script[1..]) == Direct(1, [1], script[1..][1..], -32);
    assert WriteDirectly(mb.ptr, 0, [], script) == WriteDirectly(mb.ptr, 1, [1], script[1..]);
    assert Ids([]) == [];
    states, acts := [s, Step(s, a)], [a];
  }

  /** The bytes of a block that have been sent since it was handed over. */
  function SentPart(original: Block, now: Block): seq<byte>
    requires Resumed(original, now)
  {
    if now.offset <= |original.ptr| then original.ptr[original.offset..now.offset] else []
  }

  lemma SuffixCancel(wire: seq<byte>, a: seq<byte>, x: seq<byte>, y: seq<byte>)
    requires wire + y == a + (x + y)
    ensures wire == a + x
  {
    assert wire == (wire + y)[..|wire|] && a + x == (a + (x + y))[..|a + x|];
  }

  lemma TailParts(k: Block, b: Block)
    requires Resumed(k, b)
    ensures Tail(k) == SentPart(k, b) + Tail(b)
  {
  }

  lemma PartIsOnWire(wire: seq<byte>, whole: seq<Block>, k: Block, b: Block)
    requires Resumed(k, b) && wire + Tail(b) == Stream(whole + [k])
    ensures wire == Stream(whole) + SentPart(k, b)
  {
    StreamSnoc(whole, k);
    TailParts(k, b);
    SuffixCancel(wire, Stream(whole), SentPart(k, b), Tail(b));
  }

  /** The watch holds the end of the carried blocks, and the wire is the whole blocks in front of
      that followed by a part of the first held one. */
  ghost predicate GoesOn(w: Watch, carried: seq<Block>) {
    var n := |carried| - |Held(w)|;
    && 0 <= n && carried[|carried| - |w.backlog|..] == w.backlog
    && if w.writeBuffer.Some? then
         && n < |carried| && Resumed(carried[n], w.writeBuffer.value)
         && w.wire == Stream(carried[..n]) + SentPart(carried[n], w.writeBuffer.value)
       else
         w.wire == Stream(carried[..n])
  }

  lemma BetweenBlocks(w: Watch, carried: seq<Block>, front: seq<Block>)
    requires w.writeBuffer.None? && Splits(carried, front, w) && FlowsTo(w, front)
    ensures GoesOn(w, carried)
  {
    assert carried[..|front|] == front && carried[|front|..] == w.backlog;
    assert w.wire + [] == w.wire;
  }

  lemma WithinBlock(w: Watch, carried: seq<Block>, whole: seq<Block>, k: Block)
    requires w.writeBuffer.Some? && Splits(carried, whole + [k], w) && FlowsTo(w, whole + [k])
    ensures GoesOn(w, carried)
  {
    assert carried[..|whole|] == whole && carried[|whole|] == k && carried[|whole| + 1..] == w.backlog;
    PartIsOnWire(w.wire, whole, k, w.writeBuffer.value);
  }

  lemma FrontGoesOn(w: Watch, carried: seq<Block>, front: seq<Block>)
    requires Splits(carried, front, w) && FlowsTo(w, front)
    ensures GoesOn(w, carried)
  {
    if w.writeBuffer.Some? {
      var n := |front| - 1;
      assert front == front[..n] + [front[n]];
      WithinBlock(w, carried, front[..n], front[n]);
    } else {
      BetweenBlocks(w, carried, front);
    }
  }

  /** No block is interleaved, reordered or dropped once it is partly sent. */
  lemma PartlySentBlockGoesOn(states: seq<System>, acts: seq<Action>)
    requires Run(states, acts) && !states[|acts|].finalised
    ensures GoesOn(states[|acts|].w, Carried(states[|acts|]))
  {
    RunInv(states, acts);
    var s := states[|acts|];
    FrontGoesOn(s.w, Carried(s), Front(s));
  }

  /** Block ownership. Every block handed over has been freed exactly once or is held in exactly
      one place, and after finalisation every one has been freed; dropped blocks were droppable. */
  lemma BlocksOwnedOnce(states: seq<System>, acts: seq<Action>)
    requires Run(states, acts)
    ensures var s := states[|acts|];
            && multiset(s.w.freed) + multiset(Ids(Held(s.w))) == multiset(Ids(s.passed))
            && (forall i, j :: 0 <= i < j < |s.passed| ==> s.passed[i].id != s.passed[j].id)
            && (s.finalised ==> multiset(s.w.freed) == multiset(Ids(s.passed)))
            && (forall b :: b in s.accepted && b.id in s.dropped ==> b.droppable)
  {
    RunInv(states, acts);
    var s := states[|acts|];
    KeepSelects(s.carried, s.torn);
    assert Ids([]) == [];
  }

  /** No lost write interest: something to send on a live watch means EV_WRITE is wanted or a
      writer is about to want it. */
  lemma NoLostInterest(states: seq<System>, acts: seq<Action>)
    requires Run(states, acts)
    ensures var s := states[|acts|];
            !s.w.killed && (s.w.writeBuffer.Some? || s.w.backlog != []) ==> s.w.interest || s.adders > 0
  {
    RunInv(states, acts);
  }

  /** The interest is given up only when nothing is left to send. */
  lemma InterestOutlivesWork(states: seq<System>, acts: seq<Action>, a: Action)
    requires Run(states, acts) && Enabled(states[|acts|], a)
    ensures var s, t := states[|acts|], Step(states[|acts|], a);
            s.w.interest && !t.w.interest ==> a.Writable? && Held(t.w) == []
  {
    RunInv(states, acts);
    var s := states[|acts|];
    if a.Writable? && !s.w.connecting {
      TailSplits(Carried(s), Front(s), s.w);
      PendingKeeps(s.w, a.script, Carried(s));
    }
  }

  lemma RoomIsKept(w: Watch, mb: Block, script: seq<Answer>, kept: seq<Block>, front: seq<Block>)
    requires Accounted(w) && Splits(kept, front, w) && DistinctIds(kept)
    requires w.backlogSize + |mb.ptr| <= MAX_BACKLOG_SIZE
    ensures Enqueue(AdjustWindow(w, mb.seqNo), mb, script).err == 0
  {
    AdjustKeeps(w, mb.seqNo, kept, front);
    EnqueueCases(AdjustWindow(w, mb.seqNo), mb, script);
  }

  lemma WriteableSuffices(w: Watch, mb: Block, script: seq<Answer>, kept: seq<Block>, front: seq<Block>)
    requires Accounted(w) && Splits(kept, front, w) && DistinctIds(kept)
    requires !w.killed && |mb.ptr| <= MAX_BACKLOG_SIZE && Writeable(w, |mb.ptr|) == 0
    ensures if FastPath(w) then WriteMb(w, mb, script).err != -EAGAIN else WriteMb(w, mb, script).err == 0
  {
    if FastPath(w) {
      assert WriteFast(w, mb, script).err != -EAGAIN;
    } else {
      RoomIsKept(w, mb, script, kept, front);
    }
  }

  /** Backlog accounting, and what a caller gets from asking first: if writeable says 0 for a size
      within the limit, a write of that size that follows on a live watch is taken, unless it went
      straight to the kernel and the kernel failed it. */
  lemma WriteableIsHonoured(states: seq<System>, acts: seq<Action>, mb: Block, script: seq<Answer>)
    requires Run(states, acts)
    requires !states[|acts|].finalised && !states[|acts|].w.killed && |mb.ptr| <= MAX_BACKLOG_SIZE
    requires Writeable(states[|acts|].w, |mb.ptr|) == 0
    ensures var w := states[|acts|].w;
            && w.backlogSize == SumSizes(w.backlog) <= MAX_BACKLOG_SIZE
            && (if FastPath(w) then WriteMb(w, mb, script).err != -EAGAIN else WriteMb(w, mb, script).err == 0)
  {
    RunInv(states, acts);
    KeepSelects(states[|acts|].carried, states[|acts|].dropped);
    WriteableSuffices(states[|acts|].w, mb, script, Carried(states[|acts|]), Front(states[|acts|]));
  }
}
