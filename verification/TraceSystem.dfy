/** The trace facility of src/trace.c as a protocol: one producer that checks for space in one
    critical section and writes in a later one, one worker thread that drains and prints, and
    the closing thread of async_ring_buf_free. Every critical section and every semaphore or
    flag operation is one step; a run is any interleaving of steps. */
module TraceSystem {
  import opened Base
  import opened TraceRing

  // The worker's line buffer holds TRACE_LINE_MAX_SIZE bytes including the terminator.
  const LINE_MAX := 4096
  const READ_MAX := LINE_MAX - 1

  /** Where the producer is in async_ring_buf_write. */
  datatype Producer =
    | Idle
    | Checking(data: seq<byte>)                 // before the first look at the free space
    | Looping(data: seq<byte>, free: nat)       // about to compare free with the length
    | Slept(data: seq<byte>, free: nat)         // about to look at the semaphore
    | Rechecking(data: seq<byte>)               // semaphore was 0: look at the space again
    | Ready(data: seq<byte>)                    // free space suffices: about to write
    | Written                                   // about to look at the semaphore
    | Posting                                   // semaphore was 0: about to post it

  /** Where the worker is; last tells the drain after the exit flag from the one before. */
  datatype Worker =
    | Waiting
    | Draining(cycle: bool, last: bool)
    | Printing(chunk: seq<byte>, cycle: bool, last: bool)
    | LookingAtExit
    | Finished

  datatype Closer = Open | FlagSet | Posted | Joined

  /** written: every byte accepted so far; stored: those the ring did not lose; taken: those the
      worker has taken out of it; printed: every byte on standard output. */
  datatype System = System(
    ring: Ring, sem: nat, exit: bool,
    p: Producer, w: Worker, closer: Closer,
    written: seq<byte>, stored: seq<byte>, taken: seq<byte>, printed: seq<byte>)

  datatype Action =
    | Call(data: seq<byte>) | LookAtSpace | Compare | LookAtSem | LookAgain | CopyIn | LookBeforePost | Post
    | SemWait | Drain | Print | LookAtExitFlag
    | SetExit | PostExit | Join

  ghost predicate Init(s: System) {
    && Valid(s.ring) && s.ring.size >= LINE_MAX
    && s.ring.readPos == s.ring.writePos == s.ring.readLap == s.ring.writeLap == 0
    && s.sem == 0 && !s.exit && s.p == Idle && s.w == Waiting && s.closer == Open
    && s.written == s.stored == s.taken == s.printed == []
  }

  /** When an action can happen. Callers pass no more than a line, and do not write while or after
      the buffer is being freed. */
  predicate Enabled(s: System, a: Action) {
    match a
    case Call(data) => s.p == Idle && s.closer == Open && |data| <= LINE_MAX
    case LookAtSpace => s.p.Checking?
    case Compare => s.p.Looping?
    case LookAtSem => s.p.Slept?
    case LookAgain => s.p.Rechecking?
    case CopyIn => s.p.Ready?
    case LookBeforePost => s.p == Written
    case Post => s.p == Posting
    case SemWait => s.w == Waiting && s.sem > 0
    case Drain => s.w.Draining?
    case Print => s.w.Printing?
    case LookAtExitFlag => s.w == LookingAtExit
    case SetExit => s.closer == Open && s.p == Idle
    case PostExit => s.closer == FlagSet
    case Join => s.closer == Posted && s.w == Finished
  }

  /** After a print, or after finding nothing to read: round again, or on to the next stage. */
  function AfterDrain(cycle: bool, last: bool): Worker {
    if cycle then Draining(true, last) else if last then Finished else LookingAtExit
  }

  /** What the memory accesses of the threads rely on; every reachable state has it. */
  ghost predicate Safe(s: System) {
    Valid(s.ring) && (s.p.Ready? ==> |s.p.data| <= s.ring.size)
  }

  ghost function Step(s: System, a: Action): System
    requires Safe(s) && Enabled(s, a)
  {
    match a
    case Call(data) => s.(p := Checking(data))
    case LookAtSpace => s.(p := Looping(s.p.data, FreeSpace(s.ring)))
    case Compare => s.(p := if s.p.free < |s.p.data| then Slept(s.p.data, s.p.free) else Ready(s.p.data))
    case LookAtSem => s.(p := if s.sem == 0 then Rechecking(s.p.data) else Looping(s.p.data, s.p.free))
    case LookAgain => s.(p := Looping(s.p.data, FreeSpace(s.ring)))
    case CopyIn =>
      s.(ring := Write(s.ring, s.p.data), p := Written, written := s.written + s.p.data,
         stored := if WholeAtEnd(s.ring, s.p.data) then s.stored else s.stored + s.p.data)
    case LookBeforePost => s.(p := if s.sem == 0 then Posting else Idle)
    case Post => s.(sem := s.sem + 1, p := Idle)
    case SemWait => s.(sem := s.sem - 1, w := Draining(false, false))
    case Drain =>
      var used := UsedSpace(s.ring);
      if used > 0 then
        var len := if used > READ_MAX then READ_MAX else used;
        var (ring, chunk) := Read(s.ring, len);
        s.(ring := ring, w := Printing(chunk, used > READ_MAX, s.w.last),
           taken := s.taken + Content(s.ring)[..Min(len, |Content(s.ring)|)])
      else s.(w := AfterDrain(s.w.cycle, s.w.last))
    case Print => s.(printed := s.printed + CString(s.w.chunk), w := AfterDrain(s.w.cycle, s.w.last))
    case LookAtExitFlag => s.(w := if s.exit then Draining(false, true) else Waiting)
    case SetExit => s.(exit := true, closer := FlagSet)
    case PostExit => s.(sem := s.sem + 1, closer := Posted)
    case Join => s.(closer := Joined)
  }

  // ----- Invariant -----

  /** Bytes taken out of the ring whose printing is still to come. */
  function InFlight(s: System): seq<byte> {
    if s.w.Printing? then s.w.chunk else []
  }

  /** What has been printed of the bytes taken: all of them, if there is no NUL, or less. */
  predicate Prints(text: seq<byte>, bytes: seq<byte>) {
    if NUL in bytes then |text| < |bytes| else text == bytes
  }

  /** Of the bytes taken the worker has the last ones in its hands, and has printed the others. */
  predicate Dealt(printed: seq<byte>, hands: seq<byte>, taken: seq<byte>) {
    var n := |taken| - |hands|;
    0 <= n && Prints(printed, taken[..n]) && Copies(hands, taken[n..])
  }

  /** The ring holds what was stored and not yet taken, and what was taken has been dealt with. */
  ghost predicate Stream(s: System) {
    && Valid(s.ring) && s.ring.size >= LINE_MAX
    && s.stored == s.taken + Content(s.ring)
    && |s.stored| <= |s.written| && (|s.stored| == |s.written| ==> s.stored == s.written)
    && Dealt(s.printed, InFlight(s), s.taken)
  }

  function Room(r: Ring): int
    requires Valid(r)
  {
    r.size - |Content(r)|
  }

  /** The space seen in an earlier critical section is still there in a later one. */
  ghost predicate SpaceStillFree(s: System)
    requires Valid(s.ring)
  {
    match s.p
    case Checking(data) => |data| <= s.ring.size
    case Looping(data, free) => |data| <= s.ring.size && free <= Room(s.ring)
    case Slept(data, free) => |data| <= s.ring.size && free <= Room(s.ring) && free < |data|
    case Rechecking(data) => |data| <= s.ring.size
    case Ready(data) => |data| <= Room(s.ring)
    case _ => true
  }

  /** The worker will look at the ring again without being signalled. */
  predicate WillLook(w: Worker) {
    w.Draining? || (w.Printing? && w.cycle)
  }

  /** Unread bytes are never forgotten: there is a signal, someone still to give it, or a
      worker still to look. */
  ghost predicate Remembered(s: System)
    requires Valid(s.ring)
  {
    Content(s.ring) != [] ==> s.sem > 0 || WillLook(s.w) || s.p == Written || s.p == Posting
  }

  /** The cycle flag is up only while there are more bytes, so the drain loop does not spin. */
  ghost predicate CycleHasWork(s: System)
    requires Valid(s.ring)
  {
    (s.w.Draining? || s.w.Printing?) && s.w.cycle ==> Content(s.ring) != []
  }

  ghost predicate Closing(s: System)
    requires Valid(s.ring)
  {
    && (s.exit <==> s.closer != Open)
    && (s.closer != Open ==> s.p == Idle)
    && ((s.w.Draining? || s.w.Printing?) && s.w.last ==> s.exit)
    && (s.w == Finished ==> s.exit && Content(s.ring) == [])
    && (s.w.Printing? && !s.w.cycle && s.w.last ==> Content(s.ring) == [])
    && (s.closer == Joined ==> s.w == Finished)
    && (s.closer == Posted && s.w == Waiting ==> s.sem > 0)
  }

  ghost predicate Inv(s: System) {
    Stream(s) && SpaceStillFree(s) && Remembered(s) && CycleHasWork(s) && Closing(s)
  }

  lemma InitInv(s: System)
    requires Init(s)
    ensures Inv(s)
  {
  }

  /** The writer's step: the room seen earlier is still there. */
  lemma CopyInInv(s: System)
    requires Inv(s) && s.p.Ready?
    ensures Safe(s) && Inv(Step(s, CopyIn))
  {
    SafeIfInv(s);
    WriteAppends(s.ring, s.p.data);
    var t := Step(s, CopyIn);
    if !WholeAtEnd(s.ring, s.p.data) {
      assert t.stored == t.taken + Content(t.ring);
      assert |t.stored| == |t.written| ==> s.stored == s.written;
    }
  }

  /** The worker's step: it takes a non-empty chunk, and the cycle flag says if that was all. */
  lemma DrainInv(s: System, ring: Ring, chunk: seq<byte>, bytes: seq<byte>, cycle: bool)
    requires Inv(s) && s.w.Draining?
    requires Valid(ring) && ring.size == s.ring.size && Content(s.ring) == bytes + Content(ring) && Copies(chunk, bytes)
    requires cycle <==> Content(ring) != []
    ensures Inv(s.(ring := ring, w := Printing(chunk, cycle, s.w.last), taken := s.taken + bytes))
  {
    var t := s.(ring := ring, w := Printing(chunk, cycle, s.w.last), taken := s.taken + bytes);
    assert t.stored == t.taken + Content(ring);
    assert t.taken[..|s.taken|] == s.taken[..|s.taken|] == s.taken && t.taken[|s.taken|..] == bytes;
  }

  lemma PrintsMore(text: seq<byte>, bytes: seq<byte>, chunk: seq<byte>, more: seq<byte>)
    requires Prints(text, bytes) && Copies(chunk, more)
    ensures Prints(text + CString(chunk), bytes + more)
  {
    CStringWhole(chunk);
    assert NUL in bytes + more <==> NUL in bytes || NUL in more;
  }

  lemma DealtAfterPrint(printed: seq<byte>, chunk: seq<byte>, taken: seq<byte>)
    requires Dealt(printed, chunk, taken)
    ensures Dealt(printed + CString(chunk), [], taken)
  {
    var n := |taken| - |chunk|;
    var before, last := taken[..n], taken[n..];
    assert taken == before + last;
    PrintsMore(printed, before, chunk, last);
    assert taken[..|taken|] == taken && taken[|taken|..] == [];
    CopiesNothing();
  }

  lemma CopiesNothing()
    ensures Copies([], [])
  {
  }

  lemma PrintInv(s: System)
    requires Inv(s) && Safe(s) && s.w.Printing?
    ensures Inv(Step(s, Print))
  {
    DealtAfterPrint(s.printed, s.w.chunk, s.taken);
  }

  lemma SafeIfInv(s: System)
    requires Inv(s)
    ensures Safe(s) && Room(s.ring) == FreeSpace(s.ring) && |Content(s.ring)| == UsedSpace(s.ring)
  {
    SpaceIsContent(s.ring);
  }

  lemma DrainTakes(s: System)
    requires Inv(s) && s.w.Draining? && Content(s.ring) != []
    ensures Safe(s)
    ensures var len := Min(|Content(s.ring)|, READ_MAX);
            var (ring, chunk) := Read(s.ring, len);
            var bytes := Content(s.ring)[..len];
            && Valid(ring) && ring.size == s.ring.size && Copies(chunk, bytes) && bytes != []
            && Content(ring) == Content(s.ring)[len..]
            && Step(s, Drain) == s.(ring := ring, w := Printing(chunk, |Content(s.ring)| > READ_MAX, s.w.last),
                                    taken := s.taken + bytes)
  {
    SafeIfInv(s);
    ReadTakesOldest(s.ring, Min(|Content(s.ring)|, READ_MAX));
  }

  /** A drain step that finds bytes, reduced to what it does to the content. */
  lemma DrainStepInv(s: System)
    requires Inv(s) && s.w.Draining? && Content(s.ring) != []
    ensures Safe(s) && Inv(Step(s, Drain)) && |Content(Step(s, Drain).ring)| < |Content(s.ring)|
  {
    DrainTakes(s);
    var (ring, chunk) := Read(s.ring, Min(|Content(s.ring)|, READ_MAX));
    DrainSplits(s, ring, chunk, Content(s.ring), Min(|Content(s.ring)|, READ_MAX));
  }

  lemma DrainSplits(s: System, ring: Ring, chunk: seq<byte>, c: seq<byte>, len: nat)
    requires Inv(s) && s.w.Draining? && c == Content(s.ring) && 0 < len == Min(|c|, READ_MAX)
    requires Valid(ring) && ring.size == s.ring.size && Copies(chunk, c[..len]) && Content(ring) == c[len..]
    ensures Inv(s.(ring := ring, w := Printing(chunk, |c| > READ_MAX, s.w.last), taken := s.taken + c[..len]))
    ensures |Content(ring)| < |c|
  {
    assert c == c[..len] + c[len..];
    DrainInv(s, ring, chunk, c[..len], |c| > READ_MAX);
  }

  lemma WorkerInv(s: System, a: Action)
    requires Inv(s) && Enabled(s, a) && (a.SemWait? || a.Drain? || a.Print? || a.LookAtExitFlag?)
    ensures Safe(s) && Inv(Step(s, a))
  {
    SafeIfInv(s);
    if a.Drain? && Content(s.ring) != [] {
      DrainStepInv(s);
    } else if a.Print? {
      PrintInv(s);
    }
  }

  lemma StepInv(s: System, a: Action)
    requires Inv(s) && Enabled(s, a)
    ensures Safe(s) && Inv(Step(s, a))
  {
    SafeIfInv(s);
    if a.CopyIn? {
      CopyInInv(s);
    } else if a.SemWait? || a.Drain? || a.Print? || a.LookAtExitFlag? {
      WorkerInv(s, a);
    } else if a.SetExit? || a.PostExit? || a.Join? {
      ClosingInv(s, a);
    } else {
      ProducerInv(s, a);
    }
  }

  /** The producer's other steps leave the ring and the worker alone. */
  lemma ProducerInv(s: System, a: Action)
    requires Inv(s) && Enabled(s, a)
    requires a.Call? || a.LookAtSpace? || a.Compare? || a.LookAtSem? || a.LookAgain? || a.LookBeforePost? || a.Post?
    ensures Safe(s) && Inv(Step(s, a))
  {
    SafeIfInv(s);
    var t := Step(s, a);
    assert t == s.(p := t.p, sem := t.sem);
    assert Stream(t);
  }

  lemma ClosingInv(s: System, a: Action)
    requires Inv(s) && Enabled(s, a) && (a.SetExit? || a.PostExit? || a.Join?)
    ensures Safe(s) && Inv(Step(s, a))
  {
    SafeIfInv(s);
    var t := Step(s, a);
    assert t == s.(exit := t.exit, sem := t.sem, closer := t.closer);
    assert Stream(t);
  }

  // ----- Runs -----

  /** One step of a run. Only a state with its positions in range determines what follows. */
  ghost predicate Next(s: System, a: Action, t: System) {
    Enabled(s, a) && (Safe(s) ==> t == Step(s, a))
  }

  /** A run: any interleaving of the three threads from a fresh buffer. */
  ghost predicate Run(states: seq<System>, acts: seq<Action>) {
    && |states| == |acts| + 1
    && Init(states[0])
    && forall i :: 0 <= i < |acts| ==> Next(states[i], acts[i], states[i + 1])
  }

  lemma RunInv(states: seq<System>, acts: seq<Action>)
    requires Run(states, acts)
    ensures Inv(states[|acts|])
  {
    InitInv(states[0]);
    forall i | 0 <= i < |acts| && Inv(states[i]) ensures Inv(states[i + 1]) {
      assert Next(states[i], acts[i], states[i + 1]);
      StepInv(states[i], acts[i]);
    }
    AlongRun(i => 0 <= i < |states| && Inv(states[i]), |acts|);
  }

  lemma PrefixRun(states: seq<System>, acts: seq<Action>)
    requires Run(states, acts) && acts != []
    ensures var n := |acts| - 1;
            && Run(states[..n + 1], acts[..n]) && Inv(states[n])
            && Enabled(states[n], acts[n]) && Safe(states[n]) && states[n + 1] == Step(states[n], acts[n])
  {
    var n := |acts| - 1;
    assert Run(states[..n + 1], acts[..n]);
    RunInv(states[..n + 1], acts[..n]);
    SafeIfInv(states[n]);
    assert Next(states[n], acts[n], states[n + 1]);
  }

  /** No write in the run was of the whole size of the buffer starting at its end position. */
  ghost predicate LosesNothing(states: seq<System>, acts: seq<Action>)
    requires |states| == |acts| + 1
  {
    forall i :: 0 <= i < |acts| && acts[i].CopyIn? && states[i].p.Ready? ==>
      !WholeAtEnd(states[i].ring, states[i].p.data)
  }

  /** The ring keeps what is written exactly as long as there is no such write. */
  lemma {:induction false} StoredExactly(states: seq<System>, acts: seq<Action>)
    requires Run(states, acts)
    ensures states[|acts|].stored == states[|acts|].written <==> LosesNothing(states, acts)
  {
    if acts != [] {
      var n := |acts| - 1;
      PrefixRun(states, acts);
      StoredExactly(states[..n + 1], acts[..n]);
      assert LosesNothing(states, acts) <==>
        LosesNothing(states[..n + 1], acts[..n])
        && (acts[n].CopyIn? && states[n].p.Ready? ==> !WholeAtEnd(states[n].ring, states[n].p.data));
      StoredStep(states[n], acts[n]);
    }
  }

  lemma StoredStep(s: System, a: Action)
    requires Inv(s) && Enabled(s, a) && Safe(s)
    ensures var t := Step(s, a);
            t.stored == t.written <==> s.stored == s.written && (a.CopyIn? ==> !WholeAtEnd(s.ring, s.p.data))
  {
    if a.CopyIn? {
      if s.stored == s.written && WholeAtEnd(s.ring, s.p.data) {
        assert |Step(s, a).written| > |s.written|;
      }
    }
  }

  /** The ring is a FIFO of bytes and its lap counters stay disciplined. In every reachable state
      what is stored is what has been taken followed by exactly the used region; that is all that
      was written, exactly if no write was of the whole size starting at the end position; what has
      then been printed is a prefix of it, if there is no NUL in it; the reader never meets the lap
      difference it asserts away; and a producer past its check still has the room. */
  lemma FifoInEveryRun(states: seq<System>, acts: seq<Action>)
    requires Run(states, acts)
    ensures var s := states[|acts|];
            && Valid(s.ring)
            && s.stored == s.taken + Content(s.ring)
            && (s.stored == s.written <==> LosesNothing(states, acts))
            && (LosesNothing(states, acts) && NUL !in s.written ==>
                 && s.printed <= s.written && s.written[|s.printed|..] == InFlight(s) + Content(s.ring))
            && UsedSpace(s.ring) == |Content(s.ring)|
            && UsedSpace(s.ring) + FreeSpace(s.ring) == s.ring.size
            && (s.ring.writeLap == s.ring.readLap || Wrap(s.ring.writeLap - s.ring.readLap) == 1)
            && (s.p.Ready? ==> |s.p.data| <= FreeSpace(s.ring))
  {
    RunInv(states, acts);
    StoredExactly(states, acts);
    SpaceIsContent(states[|acts|].ring);
    if NUL !in states[|acts|].stored {
      PrintedPrefix(states[|acts|]);
    }
  }

  lemma DealtWhole(printed: seq<byte>, hands: seq<byte>, taken: seq<byte>)
    requires Dealt(printed, hands, taken) && NUL !in taken
    ensures taken == printed + hands
  {
    var n := |taken| - |hands|;
    assert taken == taken[..n] + taken[n..];
    assert NUL !in taken[..n] && NUL !in taken[n..];
  }

  lemma Regroup(a: seq<byte>, b: seq<byte>, c: seq<byte>)
    ensures (a + b) + c == a + (b + c)
  {
  }

  lemma PrintedPrefix(s: System)
    requires Stream(s) && NUL !in s.stored
    ensures s.stored == s.printed + (InFlight(s) + Content(s.ring))
  {
    assert forall b :: b in s.taken ==> b in s.stored;
    DealtWhole(s.printed, InFlight(s), s.taken);
    Regroup(s.printed, InFlight(s), Content(s.ring));
  }

  // ----- A lost line -----

  /** A line that fills the default buffer from position 0 leaves the writer at its end, and so the
      reader when it has taken the line in the two pieces the worker takes it in. */
  lemma FilledAndDrained(data: seq<byte>)
    requires |data| == LINE_MAX
    ensures var r0 := Ring(LINE_MAX, seq(LINE_MAX, _ => NUL), 0, 0, 0, 0);
            Valid(r0) && FreeSpace(r0) == LINE_MAX
            && var r1 := Write(r0, data);
               Valid(r1) && UsedSpace(r1) == LINE_MAX && !WholeAtEnd(r0, data)
               && var r2 := Read(r1, READ_MAX).0;
                  Valid(r2) && UsedSpace(r2) == 1
                  && var r3 := Read(r2, 1).0;
                     Valid(r3) && FreeSpace(r3) == LINE_MAX && UsedSpace(r3) == 0 && WholeAtEnd(r3, data)
  {
    var r0 := Ring(LINE_MAX, seq(LINE_MAX, _ => NUL), 0, 0, 0, 0);
    SpaceIsContent(r0);
    WriteKeepsValid(r0, data);
    var r1 := Write(r0, data);
    SpaceIsContent(r1);
    ReadKeepsValid(r1, READ_MAX);
    var r2 := Read(r1, READ_MAX).0;
    SpaceIsContent(r2);
    ReadKeepsValid(r2, 1);
    SpaceIsContent(Read(r2, 1).0);
  }

  /** One more step of a run. */
  lemma Extend(states: seq<System>, acts: seq<Action>, a: Action) returns (states': seq<System>, acts': seq<Action>)
    requires Run(states, acts) && Enabled(states[|acts|], a) && Safe(states[|acts|])
    ensures Run(states', acts') && acts' == acts + [a] && states' == states + [Step(states[|acts|], a)]
  {
    states', acts' := states + [Step(states[|acts|], a)], acts + [a];
  }

  /** The producer passes its check, writes, and posts the semaphore if it has to. */
  lemma WriteLine(states: seq<System>, acts: seq<Action>, data: seq<byte>)
    returns (states': seq<System>, acts': seq<Action>)
    requires Run(states, acts) && Safe(states[|acts|]) && |data| == LINE_MAX <= FreeSpace(states[|acts|].ring)
    requires states[|acts|].p == Idle && states[|acts|].closer == Open && states[|acts|].ring.size == LINE_MAX
    ensures Run(states', acts')
    ensures var s := states[|acts|];
            && states'[|acts'|] == s.(ring := Write(s.ring, data), p := Written, written := s.written + data,
                                      stored := if WholeAtEnd(s.ring, data) then s.stored else s.stored + data)
  {
    states', acts' := Extend(states, acts, Call(data));
    states', acts' := Extend(states', acts', LookAtSpace);
    states', acts' := Extend(states', acts', Compare);
    states', acts' := Extend(states', acts', CopyIn);
  }

  /** The worker takes a line out of the full buffer in two pieces. */
  lemma DrainLine(states: seq<System>, acts: seq<Action>) returns (states': seq<System>, acts': seq<Action>)
    requires Run(states, acts) && Safe(states[|acts|]) && states[|acts|].p == Idle
    requires states[|acts|].w == Waiting && states[|acts|].sem > 0 && UsedSpace(states[|acts|].ring) == LINE_MAX
    requires var r2 := Read(states[|acts|].ring, READ_MAX).0; Valid(r2) && UsedSpace(r2) == 1
    ensures Run(states', acts')
    ensures var s, t := states[|acts|], states'[|acts'|];
            && t.ring == Read(Read(s.ring, READ_MAX).0, 1).0
            && t.p == s.p && t.closer == s.closer && t.written == s.written && t.stored == s.stored
  {
    states', acts' := Extend(states, acts, SemWait);
    states', acts' := Extend(states', acts', Drain);
    states', acts' := Extend(states', acts', Print);
    states', acts' := Extend(states', acts', Drain);
  }

  /** A reachable state of the default buffer, with nothing but ordinary lines of the greatest
      length written to it, in which the second line is lost. */
  lemma SecondLineIsLost(data: seq<byte>) returns (states: seq<System>, acts: seq<Action>)
    requires |data| == LINE_MAX
    ensures Run(states, acts)
    ensures var s := states[|acts|]; s.written == data + data && s.stored == data && !LosesNothing(states, acts)
  {
    var r0 := Ring(LINE_MAX, seq(LINE_MAX, _ => NUL), 0, 0, 0, 0);
    FilledAndDrained(data);
    states, acts := [System(r0, 0, false, Idle, Waiting, Open, [], [], [], [])], [];
    states, acts := WriteLine(states, acts, data);
    states, acts := Extend(states, acts, LookBeforePost);
    states, acts := Extend(states, acts, Post);
    states, acts := DrainLine(states, acts);
    states, acts := WriteLine(states, acts, data);
    var s := states[|acts|];
    assert s.stored == [] + data == data && s.written == ([] + data) + data == data + data;
    StoredExactly(states, acts);
    assert |s.stored| < |s.written|;
  }

  // ----- Signals -----

  /** With the producer idle, unread bytes imply a posted semaphore or a worker still to look. */
  lemma NothingForgotten(states: seq<System>, acts: seq<Action>)
    requires Run(states, acts)
    ensures var s := states[|acts|];
            s.p == Idle && UsedSpace(s.ring) > 0 ==> s.sem > 0 || WillLook(s.w)
  {
    RunInv(states, acts);
    SpaceIsContent(states[|acts|].ring);
  }

  /** A producer that slept for want of room is not stuck: either the worker can move, or the
      producer's own next three steps see the semaphore at 0, look again and find the room. */
  lemma WaitingProducerIsServed(states: seq<System>, acts: seq<Action>)
    requires Run(states, acts)
    requires states[|acts|].p.Slept?
    ensures var s := states[|acts|];
            Safe(s) &&
            (|| Enabled(s, SemWait) || s.w.Draining? || s.w.Printing? || s.w == LookingAtExit
             || var t := Step(s, LookAtSem);
                t.p.Rechecking? && Step(Step(t, LookAgain), Compare).p == Ready(s.p.data))
  {
    RunInv(states, acts);
    SafeIfInv(states[|acts|]);
  }

  /** When async_ring_buf_free has joined the worker, everything accepted has been printed, exactly
      if there was no NUL in it and no write of the whole size starting at the end position. */
  lemma PrintedEqualsWritten(states: seq<System>, acts: seq<Action>)
    requires Run(states, acts)
    ensures var s := states[|acts|];
            s.closer == Joined ==>
              && UsedSpace(s.ring) == 0
              && (s.printed == s.written <==> NUL !in s.written && LosesNothing(states, acts))
  {
    RunInv(states, acts);
    StoredExactly(states, acts);
    var s := states[|acts|];
    SpaceIsContent(s.ring);
    if s.closer == Joined {
      assert s.stored == s.taken == s.taken[..|s.taken|];
    }
  }

  // ----- Closing ends -----

  function WorkerStep(w: Worker): Action
    requires w != Finished
  {
    match w
    case Waiting => SemWait
    case Draining(_, _) => Drain
    case Printing(_, _, _) => Print
    case LookingAtExit => LookAtExitFlag
  }

  function WorkerRank(w: Worker): nat {
    match w
    case Finished => 0
    case Draining(_, last) => if last then 1 else 3
    case Printing(_, _, last) => if last then 2 else 4
    case LookingAtExit => 2
    case Waiting => 4
  }

  function WorkLeft(s: System): nat
    requires Valid(s.ring)
  {
    2 * |Content(s.ring)| + WorkerRank(s.w)
  }

  /** Where a step takes the worker, with the signals and the number of bytes it finds and leaves. */
  predicate Moves(w: Worker, sem: nat, bytes: nat, exit: bool, w': Worker, sem': nat, bytes': nat) {
    match w
    case Finished => false
    case Waiting => sem > 0 && sem' == sem - 1 && bytes' == bytes && w' == Draining(false, false)
    case Draining(cycle, last) =>
      && sem' == sem
      && if bytes > 0 then bytes' < bytes && w'.Printing? && w'.last == last
         else bytes' == bytes && w' == AfterDrain(cycle, last)
    case Printing(_, cycle, last) => sem' == sem && bytes' == bytes && w' == AfterDrain(cycle, last)
    case LookingAtExit => sem' == sem && bytes' == bytes && w' == if exit then Draining(false, true) else Waiting
  }

  lemma WorkerMoves(s: System)
    requires Inv(s) && s.w != Finished && Enabled(s, WorkerStep(s.w))
    ensures Safe(s)
    ensures var t := Step(s, WorkerStep(s.w));
            && Inv(t) && t.p == s.p && t.closer == s.closer
            && Moves(s.w, s.sem, |Content(s.ring)|, s.exit, t.w, t.sem, |Content(t.ring)|)
  {
    WorkerInv(s, WorkerStep(s.w));
    SafeIfInv(s);
    if s.w.Draining? && Content(s.ring) != [] {
      DrainStepInv(s);
      DrainTakes(s);
    }
  }

  /** What the invariant says about the worker alone. */
  predicate WorkerInOrder(w: Worker, sem: nat, bytes: nat, closer: Closer) {
    && (w.Draining? && w.cycle ==> bytes > 0)
    && ((w.Draining? || w.Printing?) && w.last ==> closer != Open)
    && (w == Finished ==> closer != Open)
    && (closer == Posted && w == Waiting ==> sem > 0)
  }

  lemma InvOrders(s: System)
    requires Inv(s)
    ensures WorkerInOrder(s.w, s.sem, |Content(s.ring)|, s.closer) && (s.exit <==> s.closer != Open)
    ensures s.p.Slept? ==> s.closer == Open && (AtRest(s) ==> Content(s.ring) == [])
  {
  }

  lemma ClosingRank(w: Worker, sem: nat, bytes: nat, w': Worker, sem': nat, bytes': nat)
    requires WorkerInOrder(w, sem, bytes, Posted) && Moves(w, sem, bytes, true, w', sem', bytes')
    ensures 2 * bytes' + WorkerRank(w') < 2 * bytes + WorkerRank(w)
  {
  }

  lemma OpenRanks(w: Worker, sem: nat, bytes: nat, w': Worker, sem': nat, bytes': nat)
    requires WorkerInOrder(w, sem, bytes, Open) && Moves(w, sem, bytes, false, w', sem', bytes')
    ensures 3 * sem' + 2 * bytes' + OpenRank(w') < 3 * sem + 2 * bytes + OpenRank(w)
  {
  }

  /** Once the exit has been posted, each step of the worker brings it nearer to its end. */
  lemma WorkerProgress(s: System)
    requires Inv(s) && s.closer == Posted && s.w != Finished
    ensures var a := WorkerStep(s.w);
            && Enabled(s, a) && Safe(s)
            && Step(s, a).closer == Posted && Inv(Step(s, a)) && WorkLeft(Step(s, a)) < WorkLeft(s)
  {
    InvOrders(s);
    WorkerMoves(s);
    var t := Step(s, WorkerStep(s.w));
    ClosingRank(s.w, s.sem, |Content(s.ring)|, t.w, t.sem, |Content(t.ring)|);
  }

  /** async_ring_buf_free returns: from every reachable state in which it has posted the exit, the
      worker alone drains the buffer and finishes within a bound, and can then be joined. */
  lemma {:induction false} CloseCompletes(states: seq<System>, acts: seq<Action>)
    returns (states': seq<System>, acts': seq<Action>)
    requires Run(states, acts) && states[|acts|].closer == Posted && Valid(states[|acts|].ring)
    ensures Run(states', acts') && acts <= acts' && |acts'| <= |acts| + WorkLeft(states[|acts|]) + 1
    ensures forall i :: |acts| <= i < |acts'| ==> acts'[i] in {SemWait, Drain, Print, LookAtExitFlag, Join}
    ensures states'[|acts'|].closer == Joined
    decreases WorkLeft(states[|acts|])
  {
    var s := states[|acts|];
    RunInv(states, acts);
    SafeIfInv(s);
    var a := if s.w == Finished then Join else WorkerStep(s.w);
    if s.w != Finished {
      WorkerProgress(s);
    }
    var t := Step(s, a);
    assert (acts + [a])[..|acts|] == acts;
    assert Run(states + [t], acts + [a]);
    if s.w == Finished {
      states', acts' := states + [t], acts + [a];
    } else {
      states', acts' := CloseCompletes(states + [t], acts + [a]);
    }
  }

  // ----- A waiting producer gets its room -----

  /** The worker has nothing to do until it is signalled. */
  predicate AtRest(s: System) {
    s.w == Waiting && s.sem == 0
  }

  function OpenRank(w: Worker): nat {
    match w
    case Waiting => 0
    case Finished => 0
    case LookingAtExit => 1
    case Draining(_, _) => 2
    case Printing(_, _, _) => 3
  }

  /** What the worker has to do before it comes to rest, while nobody closes or writes. */
  function OpenWork(s: System): nat
    requires Valid(s.ring)
  {
    3 * s.sem + 2 * |Content(s.ring)| + OpenRank(s.w)
  }

  lemma OpenProgress(s: System)
    requires Inv(s) && s.p.Slept? && !AtRest(s)
    ensures s.w != Finished
    ensures var a := WorkerStep(s.w);
            && Safe(s) && Enabled(s, a) && Step(s, a).p == s.p
            && Inv(Step(s, a)) && OpenWork(Step(s, a)) < OpenWork(s)
  {
    InvOrders(s);
    WorkerMoves(s);
    var t := Step(s, WorkerStep(s.w));
    OpenRanks(s.w, s.sem, |Content(s.ring)|, t.w, t.sem, |Content(t.ring)|);
  }

  lemma {:induction false} WorkerComesToRest(states: seq<System>, acts: seq<Action>)
    returns (states': seq<System>, acts': seq<Action>)
    requires Run(states, acts) && states[|acts|].p.Slept? && Valid(states[|acts|].ring)
    ensures Run(states', acts') && acts <= acts' && |acts'| <= |acts| + OpenWork(states[|acts|])
    ensures forall i :: |acts| <= i < |acts'| ==> acts'[i] in {SemWait, Drain, Print, LookAtExitFlag}
    ensures AtRest(states'[|acts'|]) && states'[|acts'|].p == states[|acts|].p
    decreases OpenWork(states[|acts|])
  {
    var s := states[|acts|];
    if AtRest(s) {
      states', acts' := states, acts;
    } else {
      RunInv(states, acts);
      OpenProgress(s);
      states', acts' := Extend(states, acts, WorkerStep(s.w));
      assert acts'[..|acts|] == acts;
      states', acts' := WorkerComesToRest(states', acts');
    }
  }

  /** A producer that wakes up looks at the ring again exactly if no signal is pending; otherwise it
      goes on waiting for the worker. */
  lemma LooksAgainWithoutSignal(states: seq<System>, acts: seq<Action>)
    requires Run(states, acts) && states[|acts|].p.Slept?
    ensures var s := states[|acts|];
            && Safe(s)
            && var t := Step(s, LookAtSem);
               && t == s.(p := t.p)
               && if s.sem == 0 then t.p == Rechecking(s.p.data) else t.p == Looping(s.p.data, s.p.free)
  {
    RunInv(states, acts);
    SafeIfInv(states[|acts|]);
  }

  /** Signals do not pile up: the producer posts only when it has seen none, and the closing thread
      once. */
  predicate FewSignals(s: System) {
    && (s.p == Posting ==> s.sem == 0 && s.closer == Open)
    && s.sem <= (if s.closer == Posted || s.closer == Joined then 2 else 1)
  }

  lemma {:induction false} SignalsBounded(states: seq<System>, acts: seq<Action>)
    requires Run(states, acts)
    ensures FewSignals(states[|acts|])
  {
    if acts != [] {
      var n := |acts| - 1;
      PrefixRun(states, acts);
      SignalsBounded(states[..n + 1], acts[..n]);
    }
  }

  /** A sleeping producer is served: from every reachable state, a bounded number of steps of the
      worker and then three of its own take it past its check. */
  lemma SleeperIsServed(states: seq<System>, acts: seq<Action>)
    returns (states': seq<System>, acts': seq<Action>)
    requires Run(states, acts) && states[|acts|].p.Slept? && Valid(states[|acts|].ring)
    ensures Run(states', acts') && acts <= acts' && |acts'| <= |acts| + OpenWork(states[|acts|]) + 3
    ensures forall i :: |acts| <= i < |acts'| ==>
              acts'[i] in {SemWait, Drain, Print, LookAtExitFlag, LookAtSem, LookAgain, Compare}
    ensures states'[|acts'|].p == Ready(states[|acts|].p.data)
  {
    states', acts' := WorkerComesToRest(states, acts);
    RunInv(states', acts');
    SafeIfInv(states'[|acts'|]);
    states', acts' := Extend(states', acts', LookAtSem);
    states', acts' := Extend(states', acts', LookAgain);
    states', acts' := Extend(states', acts', Compare);
  }
}
