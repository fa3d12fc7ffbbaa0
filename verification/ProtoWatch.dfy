/** The send side of a proto_watch (src/proto_watch.c), updated in place: block nodes on the
    circular backlog list, the write buffer pointer and the accounting fields. Each method ties the
    object to the value-level step of module SendModel. */
module ProtoWatch {
  import opened Base
  import opened IntrusiveList
  import opened SendModel

  /** The kernel's end of the connection: the bytes it has taken and the answers it will give. */
  class Socket {
    var wire: seq<byte>
    var script: seq<Answer>

    constructor (answers: seq<Answer>)
      ensures wire == [] && script == answers
    {
      wire, script := [], answers;
    }

    /** send() with MSG_DONTWAIT: the number of bytes taken, or a negative errno. */
    method Send(buf: seq<byte>) returns (ret: int)
      requires buf != []
      modifies this
      ensures script == if old(script) == [] then [] else old(script)[1..]
      ensures ret == if old(script) == [] then -EAGAIN
                     else if old(script)[0].Sent? then Min(old(script)[0].n, |buf|)
                     else -(old(script)[0].errno as int)
      ensures wire == old(wire) + if ret > 0 then buf[..ret] else []
    {
      if script == [] {
        return -EAGAIN;
      }
      var answer := script[0];
      script := script[1..];
      match answer {
        case Sent(n) =>
          ret := Min(n, |buf|);
          wire := wire + buf[..ret];
        case Failed(errno) =>
          ret := -(errno as int);
      }
    }
  }

  class Watch {
    var killed: bool
    var connecting: bool
    var windowSize: uint32
    var writeBuffer: ListHead?<Block>
    const backlogList: ListHead<Block>
    var backlogSize: uint32
    var interest: bool
    const socket: Socket
    ghost var ring: seq<ListHead<Block>>    // backlogList and its nodes
    ghost var freed: seq<nat>

    ghost predicate Valid()
      reads this, ring
    {
      && Ring(ring) && ring[0] == backlogList
      && (writeBuffer != null ==> writeBuffer !in ring)
    }

    ghost function View(): SendModel.Watch
      requires |ring| >= 1
      reads this, ring, writeBuffer, socket
    {
      SendModel.Watch(killed, connecting, windowSize,
        if writeBuffer == null then None else Some(writeBuffer.entry),
        Entries(ring[1..]), backlogSize, interest, socket.wire, freed)
    }

    constructor (s: Socket, e: Block)
      ensures Valid() && socket == s
      ensures View() == SendModel.Watch(false, false, 0, None, [], 0, false, s.wire, [])
    {
      killed, connecting, windowSize, writeBuffer := false, false, 0, null;
      var head := new ListHead<Block>(e);
      backlogList, backlogSize, interest, socket := head, 0, false, s;
      ring, freed := [head], [];
    }

    /** proto_watch_write_directly on the block of node mb. */
    method WriteDirectly(mb: ListHead<Block>) returns (err: int)
      modifies mb`entry, socket
      ensures var b := old(mb.entry);
              var d := SendModel.WriteDirectly(b.ptr, b.offset, old(socket.wire), old(socket.script));
              && mb.entry == b.(offset := d.offset) && err == d.err
              && socket.wire == d.wire && socket.script == d.script
    {
      ghost var b := mb.entry;
      ghost var d := SendModel.WriteDirectly(b.ptr, b.offset, socket.wire, socket.script);
      var size := |mb.entry.ptr|;
      if mb.entry.offset > size {
        return -EINVAL;
      }
      var left := size - mb.entry.offset;
      while left > 0
        invariant mb.entry == b.(offset := mb.entry.offset) && left == size - mb.entry.offset >= 0
        invariant d == SendModel.WriteDirectly(b.ptr, mb.entry.offset, socket.wire, socket.script)
        decreases |socket.script|
      {
        ghost var idx := mb.entry.offset;
        var ret := socket.Send(mb.entry.ptr[mb.entry.offset..]);
        assert ret > 0 ==> b.ptr[idx..][..ret] == b.ptr[idx..idx + ret];
        if ret == 0 {
          return -EAGAIN;
        } else if ret < 0 {
          if ret != -EINTR {
            return ret;
          }
          return -EAGAIN;
        } else {
          left := left - ret;
          mb.entry := mb.entry.(offset := mb.entry.offset + ret);
        }
      }
      return 0;
    }

    /** free_memblock */
    ghost method FreeBlock(mb: ListHead<Block>)
      modifies `freed
      ensures freed == old(freed) + [mb.entry.id]
    {
      freed := freed + [mb.entry.id];
    }

    /** list_del of the first node of the backlog. */
    method DetachFirst() returns (node: ListHead<Block>)
      requires Valid() && |ring| > 1
      modifies `ring, ring
      ensures Valid() && node == old(ring[1]) && node !in ring && ring == [old(ring[0])] + old(ring[2..])
      ensures node.entry == old(Entries(ring[1..]))[0] && Entries(ring[1..]) == old(Entries(ring[1..]))[1..]
      ensures writeBuffer != null ==> writeBuffer.entry == old(writeBuffer.entry)
    {
      ghost var c := ring;
      node := backlogList.next;
      DeleteFirst(node, backlogList, ring);
      ring := [c[0]] + c[2..];
      assert Entries(ring[1..]) == old(Entries(ring[1..]))[1..];
    }

    /** The head of the backlog becomes the write buffer. */
    method TakeHead()
      requires Valid() && writeBuffer == null && |ring| > 1
      modifies `writeBuffer, `backlogSize, `ring, ring
      ensures Valid() && View() == SendModel.TakeHead(old(View()))
      ensures writeBuffer == old(ring[1]) && ring == [old(ring[0])] + old(ring[2..])
    {
      writeBuffer := DetachFirst();
      backlogSize := Wrap(backlogSize - |writeBuffer.entry.ptr|);
    }

    /** Send from the write buffer, and free and clear it when all of it is gone. */
    method SendBuffer() returns (err: int)
      requires Valid() && writeBuffer != null
      modifies `writeBuffer, `freed, writeBuffer`entry, socket
      ensures Valid() && ring == old(ring) && backlogSize == old(backlogSize)
      ensures var w, b := old(View()), old(writeBuffer.entry);
              var d := SendModel.WriteDirectly(b.ptr, b.offset, old(socket.wire), old(socket.script));
              && err == d.err && socket.script == d.script
              && View() == if d.err != 0 then w.(writeBuffer := Some(b.(offset := d.offset)), wire := d.wire)
                           else SendModel.Free(w, b).(writeBuffer := None, wire := d.wire)
      ensures writeBuffer == if err != 0 then old(writeBuffer) else null
    {
      err := WriteDirectly(writeBuffer);
      assert Entries(ring[1..]) == old(Entries(ring[1..]));
      if err == 0 {
        FreeBlock(writeBuffer);
        writeBuffer := null;
      }
    }

    /** __proto_watch_write_pending */
    method WritePending() returns (err: int)
      requires Valid()
      modifies this, ring, writeBuffer, socket
      ensures Valid()
      ensures var r := SendModel.WritePending(old(View()), old(socket.script));
              View() == r.w && socket.script == r.script && err == r.err
    {
      ghost var r := SendModel.WritePending(View(), socket.script);
      while true
        invariant Valid() && r == SendModel.WritePending(View(), socket.script)
        invariant forall i :: 0 <= i < |ring| ==> ring[i] in old(ring)
        invariant writeBuffer == null || writeBuffer == old(writeBuffer) || writeBuffer in old(ring)
        decreases 2 * |ring| + if writeBuffer == null then 0 else 1
      {
        if writeBuffer == null {
          var empty := Empty(backlogList, ring);
          if empty {
            interest := false;
            return 0;
          }
          TakeHead();
        }
        err := SendBuffer();
        if err != 0 {
          return;
        }
      }
    }

    /** Remove the block at position k of the ring: list_del, accounting, free. */
    method DropAt(l: ListHead<Block>, ghost k: nat)
      requires Valid() && 0 < k < |ring| && l == ring[k]
      modifies `backlogSize, `freed, `ring, ring
      ensures Valid() && ring == Without(old(ring), k)
      ensures forall i :: 0 <= i < |ring| ==> ring[i] in old(ring)
      ensures Entries(ring[1..k]) == old(Entries(ring[1..k])) && Entries(ring[k..]) == old(Entries(ring[k..]))[1..]
      ensures backlogSize == Wrap(old(backlogSize) - |old(l.entry.ptr)|) && freed == old(freed) + [old(l.entry.id)]
      ensures writeBuffer != null ==> writeBuffer.entry == old(writeBuffer.entry)
    {
      Del(l, ring, k);
      ring := Without(ring, k);
      backlogSize := Wrap(backlogSize - |l.entry.ptr|);
      FreeBlock(l);
    }

    /** The scan has passed the nodes before position k and is on its way to the goal. */
    ghost predicate Scanning(goal: SendModel.Watch, k: nat, seqNo: uint32)
      reads this, ring
    {
      && 1 <= k <= |ring| && windowSize == goal.windowSize
      && Trimming(goal, Entries(ring[1..k]), Entries(ring[k..]), backlogSize, freed, seqNo)
    }

    /** The branch of the scan that drops the block at position k. */
    method DropStale(l: ListHead<Block>, ghost goal: SendModel.Watch, ghost k: nat, seqNo: uint32)
      returns (next: ListHead<Block>)
      requires Valid() && Scanning(goal, k, seqNo) && k < |ring| && l == ring[k]
      requires l.entry.droppable && Wrap(seqNo - l.entry.seqNo) > windowSize
      modifies `backlogSize, `freed, `ring, ring
      ensures Valid() && ring == Without(old(ring), k) && Scanning(goal, k, seqNo)
      ensures next == if k < |ring| then ring[k] else ring[0]
      ensures forall i :: 0 <= i < |ring| ==> ring[i] in old(ring)
      ensures writeBuffer != null ==> writeBuffer.entry == old(writeBuffer.entry)
    {
      next := l.next;
      TrimDrops(goal, Entries(ring[1..k]), Entries(ring[k..]), backlogSize, freed, seqNo);
      DropAt(l, k);
    }

    /** The scan of proto_watch_adjust_window. */
    method TrimBacklog(seqNo: uint32, ghost goal: SendModel.Watch)
      requires Valid() && goal == SendModel.AdjustWindow(View(), seqNo) && windowSize != 0
      modifies `backlogSize, `freed, `ring, ring
      ensures Valid() && Entries(ring[1..]) == goal.backlog && backlogSize == goal.backlogSize && freed == goal.freed
      ensures forall i :: 0 <= i < |ring| ==> ring[i] in old(ring)
      ensures writeBuffer != null ==> writeBuffer.entry == old(writeBuffer.entry)
    {
      ghost var k := 1;
      var l := backlogList.next;
      assert Entries(ring[1..1]) == [];
      while l != backlogList
        invariant Valid() && Scanning(goal, k, seqNo) && l == (if k < |ring| then ring[k] else ring[0])
        invariant forall i :: 0 <= i < |ring| ==> ring[i] in old(ring)
        invariant writeBuffer != null ==> writeBuffer.entry == old(writeBuffer.entry)
        decreases |ring| - k
      {
        var mb := l.entry;
        if !mb.droppable {
          TrimSkips(goal, Entries(ring[1..k]), Entries(ring[k..]), backlogSize, freed, seqNo);
          EntriesStep(ring, k);
          k := k + 1;
          l := l.next;
        } else if Wrap(seqNo - mb.seqNo) <= windowSize {
          break;
        } else {
          l := DropStale(l, goal, k, seqNo);
        }
      }
      TrimStops(goal, Entries(ring[1..k]), Entries(ring[k..]), backlogSize, freed, seqNo);
      EntriesSplit(ring, k);
    }

    /** proto_watch_adjust_window */
    method AdjustWindow(seqNo: uint32)
      requires Valid()
      modifies `backlogSize, `freed, `ring, ring
      ensures Valid() && View() == SendModel.AdjustWindow(old(View()), seqNo)
      ensures forall i :: 0 <= i < |ring| ==> ring[i] in old(ring)
    {
      if windowSize != 0 {
        TrimBacklog(seqNo, SendModel.AdjustWindow(View(), seqNo));
      }
    }

    /** proto_watch_write_mb up to its unlock; pending says that EV_WRITE is still to be added. */
    method WriteMb(mb: ListHead<Block>) returns (err: int, pending: bool)
      requires Valid() && mb !in ring && mb != writeBuffer
      modifies this, ring, mb, writeBuffer, socket
      ensures Valid()
      ensures var r := SendModel.WriteMb(old(View()), old(mb.entry), old(socket.script));
              View() == r.w && socket.script == r.script && err == r.err && pending == r.pending
    {
      pending := false;
      if killed {
        FreeBlock(mb);
        return -EKILLED, false;
      }
      var empty := Empty(backlogList, ring);
      if !connecting && writeBuffer == null && empty {
        err, pending := WriteFast(mb);
        return;
      }
      AdjustWindow(mb.entry.seqNo);
      err, pending := Enqueue(mb);
    }

    /** The branch of proto_watch_write_mb that goes to the kernel at once. */
    method WriteFast(mb: ListHead<Block>) returns (err: int, pending: bool)
      requires Valid() && mb !in ring && writeBuffer == null
      modifies `writeBuffer, `freed, mb`entry, socket
      ensures Valid()
      ensures var r := SendModel.WriteFast(old(View()), old(mb.entry), old(socket.script));
              View() == r.w && socket.script == r.script && err == r.err && pending == r.pending
    {
      pending := false;
      err := WriteDirectly(mb);
      assert Entries(ring[1..]) == old(Entries(ring[1..]));
      if err != -EAGAIN {
        FreeBlock(mb);
        return;
      }
      writeBuffer := mb;
      pending := true;
      err := 0;
    }

    /** The branch of proto_watch_write_mb that queues or refuses. */
    method Enqueue(mb: ListHead<Block>) returns (err: int, pending: bool)
      requires Valid() && mb !in ring && mb != writeBuffer
      modifies `backlogSize, `freed, `ring, ring, mb`next, mb`prev
      ensures Valid()
      ensures var r := SendModel.Enqueue(old(View()), old(mb.entry), socket.script);
              View() == r.w && err == r.err && pending == r.pending
    {
      if Wrap(backlogSize + |mb.entry.ptr|) > MAX_BACKLOG_SIZE {
        FreeBlock(mb);
        return -EAGAIN, false;
      }
      AddTail(mb, backlogList, ring);
      ghost var was := ring;
      ring := ring + [mb];
      assert ring[1..] == was[1..] + [mb];
      assert Entries(ring[1..]) == old(Entries(ring[1..])) + [mb.entry];
      backlogSize := Wrap(backlogSize + |mb.entry.ptr|);
      return 0, true;
    }

    /** proto_watch_writeable */
    method Writeable(size: uint32) returns (err: int)
      requires Valid()
      ensures err == SendModel.Writeable(View(), size)
    {
      err := -EAGAIN;
      if size > MAX_BACKLOG_SIZE {
        return 0;
      }
      if Wrap(backlogSize + size) <= MAX_BACKLOG_SIZE {
        err := 0;
      }
    }

    /** free_backlog_list */
    method FreeBacklog()
      requires Valid()
      modifies `ring, `freed, ring
      ensures Valid() && |ring| == 1 && freed == old(freed) + Ids(old(Entries(ring[1..])))
      ensures writeBuffer != null ==> writeBuffer.entry == old(writeBuffer.entry)
    {
      ghost var all := freed + Ids(Entries(ring[1..]));
      while backlogList.next != backlogList
        invariant Valid() && forall i :: 0 <= i < |ring| ==> ring[i] in old(ring)
        invariant freed + Ids(Entries(ring[1..])) == all
        invariant writeBuffer != null ==> writeBuffer.entry == old(writeBuffer.entry)
        decreases |ring|
      {
        ghost var rest := Entries(ring[1..]);
        var l := DetachFirst();
        FreeBlock(l);
        assert Ids(rest) == [rest[0].id] + Ids(rest[1..]);
      }
      assert ring[1..] == [] && Ids([]) == [];
    }

    /** The freeing of held blocks in proto_watch_fin_self. */
    method Finalise()
      requires Valid()
      modifies this, ring
      ensures Valid() && View() == SendModel.Finalise(old(View())) && |ring| == 1
    {
      var empty := Empty(backlogList, ring);
      if !empty {
        FreeBacklog();
      } else {
        assert Ids(Entries(ring[1..])) == [];
      }
      if writeBuffer != null {
        FreeBlock(writeBuffer);
        writeBuffer := null;
      }
    }
  }

  lemma EntriesStep(c: seq<ListHead<Block>>, k: nat)
    requires 0 < k < |c|
    ensures Entries(c[1..k + 1]) == Entries(c[1..k]) + [c[k].entry] && Entries(c[k + 1..]) == Entries(c[k..])[1..]
  {
  }

  lemma EntriesSplit(c: seq<ListHead<Block>>, k: nat)
    requires 0 < k <= |c|
    ensures Entries(c[1..]) == Entries(c[1..k]) + Entries(c[k..])
  {
  }

  /** Midway through the scan: what is left of it will reach the goal. */
  ghost predicate Trimming(goal: SendModel.Watch, done: seq<Block>, here: seq<Block>,
                           size: uint32, freed: seq<nat>, seqNo: uint32)
  {
    var rest := Trim(here, seqNo, goal.windowSize);
    && goal.backlog == done + rest.kept
    && goal.backlogSize == Uncount(size, rest.dropped)
    && goal.freed == freed + Ids(rest.dropped)
  }

  lemma TrimSkips(goal: SendModel.Watch, done: seq<Block>, here: seq<Block>,
                  size: uint32, freed: seq<nat>, seqNo: uint32)
    requires Trimming(goal, done, here, size, freed, seqNo) && here != [] && !here[0].droppable
    ensures Trimming(goal, done + [here[0]], here[1..], size, freed, seqNo)
  {
    var rest := Trim(here[1..], seqNo, goal.windowSize);
    assert done + ([here[0]] + rest.kept) == (done + [here[0]]) + rest.kept;
  }

  lemma TrimDrops(goal: SendModel.Watch, done: seq<Block>, here: seq<Block>,
                  size: uint32, freed: seq<nat>, seqNo: uint32)
    requires Trimming(goal, done, here, size, freed, seqNo)
    requires here != [] && here[0].droppable && Age(here[0], seqNo) > goal.windowSize
    ensures Trimming(goal, done, here[1..], Wrap(size - |here[0].ptr|), freed + [here[0].id], seqNo)
  {
    var rest := Trim(here[1..], seqNo, goal.windowSize);
    assert Ids([here[0]] + rest.dropped) == [here[0].id] + Ids(rest.dropped);
    assert ([here[0]] + rest.dropped)[1..] == rest.dropped;
  }

  lemma TrimStops(goal: SendModel.Watch, done: seq<Block>, here: seq<Block>,
                  size: uint32, freed: seq<nat>, seqNo: uint32)
    requires Trimming(goal, done, here, size, freed, seqNo)
    requires here == [] || (here[0].droppable && Age(here[0], seqNo) <= goal.windowSize)
    ensures goal.backlog == done + here && goal.backlogSize == size && goal.freed == freed
  {
    assert freed + Ids([]) == freed;
  }
}
