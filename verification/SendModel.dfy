/** The send side of src/proto_watch.c as values: the direct-write fast path, the one partly
    sent write buffer, the byte-bounded backlog and the dropping of blocks that have fallen out
    of the sequence window. The kernel's answers to send() are a script of arbitrary length. */
module SendModel {
  import opened Base

  const MAX_BACKLOG_SIZE := 65536
  const EINTR := 4
  const EAGAIN := 11
  const EINVAL := 22
  const EKILLED := 256

  type positive = x: int | 0 < x witness 1

  /** An mb_t: ptr holds the size bytes in use, offset counts those already sent. The id tells one
      handing-over of a block from another, also when a header has been freed and reused. */
  datatype Block = Block(id: nat, ptr: seq<byte>, seqNo: uint32, droppable: bool, offset: nat)

  /** One answer of send(): some bytes taken (at most what was offered), or an errno. */
  datatype Answer = Sent(n: nat) | Failed(errno: positive)

  // ----- proto_watch_write_directly -----

  datatype Direct = Direct(offset: nat, wire: seq<byte>, script: seq<Answer>, err: int)

  /** Offers ptr[idx..] to the kernel until it is taken or an answer ends the loop. A script that
      has run out answers EAGAIN. */
  function WriteDirectly(ptr: seq<byte>, idx: nat, wire: seq<byte>, script: seq<Answer>): Direct
    decreases |script|
  {
    if idx > |ptr| then Direct(idx, wire, script, -EINVAL)
    else if idx == |ptr| then Direct(idx, wire, script, 0)
    else if script == [] then Direct(idx, wire, script, -EAGAIN)
    else match script[0]
      case Sent(n) =>
        var k := Min(n, |ptr| - idx);
        if k == 0 then Direct(idx, wire, script[1..], -EAGAIN)
        else WriteDirectly(ptr, idx + k, wire + ptr[idx..idx + k], script[1..])
      case Failed(errno) =>
        Direct(idx, wire, script[1..], if errno == EINTR then -EAGAIN else -(errno as int))
  }

  /** The wire grows by exactly the bytes the offset moves over, and success means all of them. */
  lemma {:induction false} DirectMoves(ptr: seq<byte>, idx: nat, wire: seq<byte>, script: seq<Answer>)
    ensures var d := WriteDirectly(ptr, idx, wire, script);
            && (idx > |ptr| ==> d.offset == idx && d.wire == wire && d.err == -EINVAL)
            && (idx <= |ptr| ==> idx <= d.offset <= |ptr| && d.wire == wire + ptr[idx..d.offset])
            && (d.err == 0 <==> d.offset == |ptr|)
            && d.err <= 0
    decreases |script|
  {
    if idx < |ptr| && script != [] && script[0].Sent? {
      var k := Min(script[0].n, |ptr| - idx);
      if k > 0 {
        DirectMoves(ptr, idx + k, wire + ptr[idx..idx + k], script[1..]);
        var d := WriteDirectly(ptr, idx, wire, script);
        assert ptr[idx..idx + k] + ptr[idx + k..d.offset] == ptr[idx..d.offset];
      }
    }
  }

  // ----- The watch -----

  /** interest: EV_WRITE is in the event mask. wire: every byte the kernel has taken. freed: the
      ids of the blocks passed to free_memblock, in order. */
  datatype Watch = Watch(
    killed: bool, connecting: bool, windowSize: uint32,
    writeBuffer: Option<Block>, backlog: seq<Block>, backlogSize: uint32,
    interest: bool, wire: seq<byte>, freed: seq<nat>)

  function Free(w: Watch, b: Block): Watch {
    w.(freed := w.freed + [b.id])
  }

  /** The head of the backlog becomes the write buffer. */
  function TakeHead(w: Watch): Watch
    requires w.backlog != []
  {
    w.(writeBuffer := Some(w.backlog[0]), backlog := w.backlog[1..],
       backlogSize := Wrap(w.backlogSize - |w.backlog[0].ptr|))
  }

  datatype Result = Result(w: Watch, script: seq<Answer>, err: int)

  /** __proto_watch_write_pending */
  function WritePending(w: Watch, script: seq<Answer>): Result
    decreases 2 * |w.backlog| + if w.writeBuffer.Some? then 1 else 0
  {
    if w.writeBuffer.None? then
      if w.backlog == [] then Result(w.(interest := false), script, 0)
      else WritePending(TakeHead(w), script)
    else
      var b := w.writeBuffer.value;
      var d := WriteDirectly(b.ptr, b.offset, w.wire, script);
      if d.err != 0 then
        Result(w.(writeBuffer := Some(b.(offset := d.offset)), wire := d.wire), d.script, d.err)
      else
        WritePending(Free(w, b).(writeBuffer := None, wire := d.wire), d.script)
  }

  /** The age of a block relative to a sequence number, modulo 2^32. */
  function Age(b: Block, seqNo: uint32): uint32 {
    Wrap(seqNo - b.seqNo)
  }

  datatype Trimmed = Trimmed(kept: seq<Block>, dropped: seq<Block>)

  /** The scan of proto_watch_adjust_window: it passes over undroppable blocks, removes droppable
      ones that are too old, and stops at the first droppable one that is not. */
  function Trim(backlog: seq<Block>, seqNo: uint32, window: uint32): Trimmed {
    if backlog == [] then Trimmed([], [])
    else
      var b := backlog[0];
      if b.droppable && Age(b, seqNo) <= window then Trimmed(backlog, [])
      else
        var rest := Trim(backlog[1..], seqNo, window);
        if b.droppable then Trimmed(rest.kept, [b] + rest.dropped) else Trimmed([b] + rest.kept, rest.dropped)
  }

  function Ids(bs: seq<Block>): (ids: seq<nat>)
    ensures |ids| == |bs|
  {
    seq(|bs|, i requires 0 <= i < |bs| => bs[i].id)
  }

  /** backlog_size after the blocks have been taken out one by one. */
  function Uncount(size: uint32, bs: seq<Block>): uint32
    decreases |bs|
  {
    if bs == [] then size else Uncount(Wrap(size - |bs[0].ptr|), bs[1..])
  }

  /** What proto_watch_adjust_window drops. */
  function Dropped(w: Watch, seqNo: uint32): seq<Block> {
    if w.windowSize == 0 then [] else Trim(w.backlog, seqNo, w.windowSize).dropped
  }

  function AdjustWindow(w: Watch, seqNo: uint32): Watch {
    if w.windowSize == 0 then w
    else
      var t := Trim(w.backlog, seqNo, w.windowSize);
      w.(backlog := t.kept, backlogSize := Uncount(w.backlogSize, t.dropped), freed := w.freed + Ids(t.dropped))
  }

  /** The fast path is open: connected, nothing partly sent and nothing queued. */
  predicate FastPath(w: Watch) {
    !w.killed && !w.connecting && w.writeBuffer.None? && w.backlog == []
  }

  datatype Written = Written(w: Watch, script: seq<Answer>, err: int, pending: bool)

  /** The block is offered to the kernel at once. */
  function WriteFast(w: Watch, mb: Block, script: seq<Answer>): Written {
    var d := WriteDirectly(mb.ptr, mb.offset, w.wire, script);
    if d.err != -EAGAIN then Written(Free(w.(wire := d.wire), mb), d.script, d.err, false)
    else Written(w.(writeBuffer := Some(mb.(offset := d.offset)), wire := d.wire), d.script, 0, true)
  }

  /** The block is queued if the backlog has room for it. */
  function Enqueue(w: Watch, mb: Block, script: seq<Answer>): Written {
    var size := Wrap(w.backlogSize + |mb.ptr|);
    if size > MAX_BACKLOG_SIZE then Written(Free(w, mb), script, -EAGAIN, false)
    else Written(w.(backlog := w.backlog + [mb], backlogSize := size), script, 0, true)
  }

  /** The critical section of proto_watch_write_mb. With pending set the caller goes on to add
      EV_WRITE to the event mask. */
  function WriteMb(w: Watch, mb: Block, script: seq<Answer>): Written {
    if w.killed then Written(Free(w, mb), script, -EKILLED, false)
    else if FastPath(w) then WriteFast(w, mb, script)
    else Enqueue(AdjustWindow(w, mb.seqNo), mb, script)
  }

  /** proto_watch_writeable */
  function Writeable(w: Watch, size: uint32): int {
    if size > MAX_BACKLOG_SIZE then 0
    else if Wrap(w.backlogSize + size) <= MAX_BACKLOG_SIZE then 0
    else -EAGAIN
  }

  /** free_backlog_list and the freeing of write_buffer in proto_watch_fin_self. */
  function Finalise(w: Watch): Watch {
    var freed := w.freed + Ids(w.backlog) + (if w.writeBuffer.Some? then [w.writeBuffer.value.id] else []);
    w.(backlog := [], writeBuffer := None, freed := freed)
  }

  // ----- Streams of blocks -----

  /** The bytes of a block still to be sent. */
  function Tail(b: Block): seq<byte> {
    if b.offset <= |b.ptr| then b.ptr[b.offset..] else []
  }

  function Stream(bs: seq<Block>): seq<byte> {
    if bs == [] then [] else Tail(bs[0]) + Stream(bs[1..])
  }

  /** What the watch still has to send: the rest of the write buffer, then the backlog. */
  function Rest(w: Watch): seq<byte> {
    (if w.writeBuffer.Some? then Tail(w.writeBuffer.value) else []) + Stream(w.backlog)
  }

  function SumSizes(bs: seq<Block>): nat {
    if bs == [] then 0 else |bs[0].ptr| + SumSizes(bs[1..])
  }

  /** backlog_size is the sum of the queued sizes and within the bound. */
  predicate Accounted(w: Watch) {
    w.backlogSize == SumSizes(w.backlog) <= MAX_BACKLOG_SIZE
  }

  /** The blocks the watch holds. */
  function Held(w: Watch): seq<Block> {
    (if w.writeBuffer.Some? then [w.writeBuffer.value] else []) + w.backlog
  }

  lemma {:induction false} StreamAppend(a: seq<Block>, b: seq<Block>)
    ensures Stream(a + b) == Stream(a) + Stream(b)
  {
    if a == [] {
      assert a + b == b;
    } else {
      assert (a + b)[1..] == a[1..] + b;
      StreamAppend(a[1..], b);
    }
  }

  lemma StreamSnoc(bs: seq<Block>, b: Block)
    ensures Stream(bs + [b]) == Stream(bs) + Tail(b)
  {
    StreamAppend(bs, [b]);
    assert [b][1..] == [] && Stream([b]) == Tail(b) + [];
  }

  lemma {:induction false} SumSizesAppend(a: seq<Block>, b: seq<Block>)
    ensures SumSizes(a + b) == SumSizes(a) + SumSizes(b)
  {
    if a == [] {
      assert a + b == b;
    } else {
      assert (a + b)[1..] == a[1..] + b;
      SumSizesAppend(a[1..], b);
    }
  }

  // ----- Window trimming -----

  /** A block survives a full filter when it is undroppable or still in the window. */
  predicate InWindow(b: Block, seqNo: uint32, window: uint32) {
    !b.droppable || Age(b, seqNo) <= window
  }

  function FilterWindow(bs: seq<Block>, seqNo: uint32, window: uint32): (r: seq<Block>)
    ensures |r| <= |bs|
    ensures |r| == |bs| ==> r == bs
    ensures |r| == |bs| ==> forall b :: b in bs ==> InWindow(b, seqNo, window)
  {
    if bs == [] then []
    else if InWindow(bs[0], seqNo, window) then [bs[0]] + FilterWindow(bs[1..], seqNo, window)
    else FilterWindow(bs[1..], seqNo, window)
  }

  /** No droppable block out of the window is queued behind a droppable one inside it. */
  predicate StaleFirst(bs: seq<Block>, seqNo: uint32, window: uint32) {
    forall i, j :: 0 <= i < j < |bs| && bs[i].droppable && InWindow(bs[i], seqNo, window) ==>
      InWindow(bs[j], seqNo, window)
  }

  lemma {:induction false} FilterKeepsAll(bs: seq<Block>, seqNo: uint32, window: uint32)
    requires forall b :: b in bs ==> InWindow(b, seqNo, window)
    ensures FilterWindow(bs, seqNo, window) == bs
  {
    if bs != [] {
      FilterKeepsAll(bs[1..], seqNo, window);
    }
  }

  lemma StaleFirstTail(b: Block, rest: seq<Block>, seqNo: uint32, window: uint32)
    requires !(b.droppable && InWindow(b, seqNo, window))
    ensures StaleFirst([b] + rest, seqNo, window) <==> StaleFirst(rest, seqNo, window)
  {
    var bs := [b] + rest;
    assert forall j :: 0 <= j < |rest| ==> rest[j] == bs[j + 1];
    assert forall j :: 0 < j < |bs| ==> bs[j] == rest[j - 1];
  }

  lemma StaleFirstFresh(bs: seq<Block>, seqNo: uint32, window: uint32)
    requires bs != [] && bs[0].droppable && InWindow(bs[0], seqNo, window)
    ensures StaleFirst(bs, seqNo, window) <==> FilterWindow(bs, seqNo, window) == bs
  {
    if StaleFirst(bs, seqNo, window) {
      FilterKeepsAll(bs, seqNo, window);
    } else {
      var i, j :| 0 <= i < j < |bs| && !InWindow(bs[j], seqNo, window);
      assert bs[j] in bs;
    }
  }

  /** Stopping early is the same as filtering out every stale block exactly when stale droppable
      blocks are queued in front of fresh ones. */
  lemma {:induction false} EarlyExitIsFullFilter(bs: seq<Block>, seqNo: uint32, window: uint32)
    ensures Trim(bs, seqNo, window).kept == FilterWindow(bs, seqNo, window) <==> StaleFirst(bs, seqNo, window)
  {
    if bs != [] {
      if bs[0].droppable && InWindow(bs[0], seqNo, window) {
        StaleFirstFresh(bs, seqNo, window);
      } else {
        EarlyExitIsFullFilter(bs[1..], seqNo, window);
        StaleFirstTail(bs[0], bs[1..], seqNo, window);
        assert [bs[0]] + bs[1..] == bs;
        var kept, full := Trim(bs[1..], seqNo, window).kept, FilterWindow(bs[1..], seqNo, window);
        assert ([bs[0]] + kept)[1..] == kept && ([bs[0]] + full)[1..] == full;
      }
    }
  }

  /** A stale block behind a fresh one outlives the scan: the window is 2 and the ages are 0 and 5. */
  lemma StaleBehindFreshSurvives()
    ensures var young, aged := Block(0, [1], 5, true, 0), Block(1, [2], 0, true, 0);
            && Trim([young, aged], 5, 2).kept == [young, aged]
            && FilterWindow([young, aged], 5, 2) == [young]
  {
    var young, aged := Block(0, [1], 5, true, 0), Block(1, [2], 0, true, 0);
    assert Age(young, 5) == 0 && Age(aged, 5) == 5;
    assert [young, aged][1..] == [aged];
    assert FilterWindow([aged], 5, 2) == [];
  }

  /** Droppable blocks queued with non-increasing age are queued stale first. */
  lemma AgesInOrder(bs: seq<Block>, seqNo: uint32, window: uint32)
    requires forall i, j :: 0 <= i < j < |bs| && bs[i].droppable && bs[j].droppable ==>
               Age(bs[i], seqNo) >= Age(bs[j], seqNo)
    ensures Trim(bs, seqNo, window).kept == FilterWindow(bs, seqNo, window)
  {
    EarlyExitIsFullFilter(bs, seqNo, window);
  }
}
