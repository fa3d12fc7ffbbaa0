/** The async_ring_buf_t object of src/trace.c, updated in place over a byte array. Each method
    is one critical section; its contract ties the fields to the ring of module TraceRing. */
module AsyncRingBuffer {
  import opened Base
  import opened TraceRing
  import opened TraceSystem

  class AsyncRingBuf {
    const size: uint32
    const start: array<byte>
    var readPos: uint32
    var readReverse: uint32
    var writePos: uint32
    var writeReverse: uint32

    ghost function View(): Ring
      reads this, start
    {
      Ring(size, start[..], readPos, readReverse, writePos, writeReverse)
    }

    constructor (n: uint32)
      requires 0 < n < U32 / 2
      ensures fresh(this) && fresh(start) && size == n
      ensures Valid(View()) && Content(View()) == []
      ensures readPos == writePos == readReverse == writeReverse == 0
    {
      size := n;
      start := new byte[n](_ => NUL);
      readPos, readReverse := 0, 0;
      writePos, writeReverse := 0, 0;
    }

    method GetFreeSpace() returns (space: uint32)
      requires Valid(View())
      ensures space == FreeSpace(View()) == size - |Content(View())|
    {
      SpaceIsContent(View());
      space := 0;
      if readReverse == writeReverse {
        space := Wrap(size - writePos + readPos);
      } else if Wrap(writeReverse - readReverse) == 1 {
        space := Wrap(readPos - writePos);
      }
    }

    method GetUsedSpace() returns (space: uint32)
      requires Valid(View())
      ensures space == UsedSpace(View()) == |Content(View())|
    {
      SpaceIsContent(View());
      if readReverse == writeReverse {
        space := Wrap(writePos - readPos);
      } else if Wrap(writeReverse - readReverse) == 1 {
        space := Wrap(size - readPos + writePos);
      } else {
        space := size;
      }
    }

    /** memcpy into the cells. */
    method CopyIn(at: nat, s: seq<byte>)
      requires at + |s| <= start.Length
      modifies start
      ensures start[..] == Overwrite(old(start[..]), at, s)
    {
      for i := 0 to |s|
        invariant forall k :: 0 <= k < start.Length ==>
          start[k] == if at <= k < at + i then s[k - at] else old(start[k])
      {
        start[at + i] := s[i];
      }
    }

    /** strncpy of n cells from position from to dest at position to. */
    method CopyOut(dest: array<byte>, to: nat, from: nat, n: nat)
      requires dest != start && to + n <= dest.Length && from + n <= start.Length
      modifies dest
      ensures dest[to..to + n] == Strncpy(start[from..from + n])
      ensures dest[..to] == old(dest[..to]) && dest[to + n..] == old(dest[to + n..])
    {
      ghost var s, before := start[from..from + n], dest[..];
      assert before[..to] == old(dest[..to]) && before[to + n..] == old(dest[to + n..]);
      var i := 0;
      while i < n && start[from + i] != NUL
        invariant 0 <= i <= n
        invariant |s| == n && forall k :: 0 <= k < i ==> s[k] != NUL
        invariant forall k :: 0 <= k < dest.Length ==>
          dest[k] == if to <= k < to + i then s[k - to] else before[k]
      {
        assert s[i] == start[from + i];
        dest[to + i] := start[from + i];
        i := i + 1;
      }
      assert i < n ==> s[i] == start[from + i];
      forall k | 0 <= k < n ensures Strncpy(s)[k] == if k < i then s[k] else NUL {
        StrncpyAt(s, i, k);
      }
      while i < n
        invariant 0 <= i <= n
        invariant forall k :: 0 <= k < dest.Length ==>
          dest[k] == if to <= k < to + i then Strncpy(s)[k - to] else before[k]
      {
        dest[to + i] := NUL;
        i := i + 1;
      }
      assert dest[..to] == before[..to] && dest[to + n..] == before[to + n..];
    }

    /** A read that stays within the cells is one copy. */
    method CopyStraight(dest: array<byte>, pos: nat, n: nat)
      requires dest != start && n <= dest.Length && pos + n <= start.Length
      modifies dest
      ensures dest[..n] == Fetched(start[..], pos, n)
    {
      CopyOut(dest, 0, pos, n);
      ghost var cells := start[..];
      assert cells[pos..pos + n] == start[pos..pos + n];
      assert dest[..n] == dest[0..0 + n] == Strncpy(cells[pos..pos + n]);
    }

    /** A read that reaches the end of the cells is two copies. */
    method CopyRound(dest: array<byte>, pos: nat, n: nat)
      requires dest != start && n <= dest.Length && pos <= start.Length
      requires start.Length - pos <= n <= start.Length
      modifies dest
      ensures dest[..n] == Fetched(start[..], pos, n)
    {
      var split := start.Length - pos;
      FetchedPieces(start[..], pos, n);
      CopyOut(dest, 0, pos, split);
      CopyOut(dest, split, 0, n - split);
      assert start[pos..pos + split] == start[..][pos..] && start[0..n - split] == start[..][..n - split];
      assert dest[..n] == dest[..split] + dest[split..n];
      assert dest[..split] == dest[0..split];
    }

    /** The copying half of async_ring_buf_read. */
    method CopyOldest(dest: array<byte>, len: nat) returns (readbytes: nat)
      requires Valid(View()) && dest != start && len <= dest.Length
      modifies dest
      ensures readbytes == ReadCount(old(View()), len) <= dest.Length
      ensures dest[..readbytes] == Fetched(start[..], readPos, readbytes)
    {
      readbytes := 0;
      WrapSmall(writePos - readPos);
      WrapSmall(size - readPos + writePos);
      if readReverse == writeReverse {
        var usedbytes := Wrap(writePos - readPos);
        readbytes := if len <= usedbytes then len else usedbytes;
        CopyStraight(dest, readPos, readbytes);
      } else if Wrap(writeReverse - readReverse) == 1 {
        if len <= size - readPos {
          CopyStraight(dest, readPos, len);
          readbytes := len;
        } else {
          var usedbytes := Wrap(size - readPos + writePos);
          readbytes := if len <= usedbytes then len else usedbytes;
          CopyRound(dest, readPos, readbytes);
        }
      } else {
        assert false;
      }
    }

    /** The position update of async_ring_buf_read. */
    method AdvanceRead(n: nat)
      requires size > 0
      modifies `readPos, `readReverse
      ensures (readPos, readReverse) == Advance(size, old(readPos), old(readReverse), n)
    {
      readPos := Wrap(readPos + n);
      if readPos > size {
        readPos := readPos % size;
        readReverse := Wrap(readReverse + 1);
      }
    }

    /** async_ring_buf_read; dest holds at least len bytes. */
    method Read(dest: array<byte>, len: nat) returns (readbytes: nat)
      requires Valid(View()) && dest != start && len <= dest.Length && len < size
      modifies `readPos, `readReverse, dest
      ensures Valid(View()) && readbytes <= dest.Length
      ensures View() == TraceRing.Read(old(View()), len).0
      ensures dest[..readbytes] == TraceRing.Read(old(View()), len).1
    {
      ghost var r := View();
      ReadKeepsValid(r, len);
      readbytes := CopyOldest(dest, len);
      AdvanceRead(readbytes);
      assert View() == TraceRing.Read(r, len).0;
    }

    /** The second critical section of async_ring_buf_write. */
    method Write(line: seq<byte>)
      requires Valid(View()) && |line| <= FreeSpace(View())
      modifies `writePos, `writeReverse, start
      ensures |line| <= size && View() == TraceRing.Write(old(View()), line)
      ensures Valid(View())
    {
      SpaceIsContent(View());
      WriteKeepsValid(View(), line);
      if writePos + |line| > size {
        CopyIn(writePos, line[..size - writePos]);
        CopyIn(0, line[size - writePos..]);
      } else {
        CopyIn(writePos, line);
      }
      writePos := Wrap(writePos + |line|);
      if writePos > size {
        writePos := writePos % size;
        writeReverse := Wrap(writeReverse + 1);
      }
    }

    /** The critical section of trace_print_until_zero: up to a line's worth of the oldest bytes. */
    method TakeLine(line: array<byte>, wasCycle: bool) returns (readbytes: nat, cycle: bool)
      requires Valid(View()) && size >= LINE_MAX
      requires line != start && line.Length == LINE_MAX
      modifies `readPos, `readReverse, line
      ensures Valid(View())
      ensures readbytes == Min(READ_MAX, |old(Content(View()))|)
      ensures Copies(line[..readbytes], old(Content(View()))[..readbytes])
      ensures Content(View()) == old(Content(View()))[readbytes..]
      ensures cycle == if readbytes == 0 then wasCycle else Content(View()) != []
    {
      cycle := wasCycle;
      readbytes := GetUsedSpace();
      if readbytes > 0 {
        if readbytes > READ_MAX {
          readbytes := READ_MAX;
          cycle := true;
        } else {
          cycle := false;
        }
        ReadTakesOldest(View(), readbytes);
        readbytes := Read(line, readbytes);
      }
    }

    /** The print after the critical section: terminate the line and print it with "%s". */
    method PrintLine(line: array<byte>, n: nat) returns (text: seq<byte>)
      requires n < line.Length
      modifies line
      ensures text == CString(old(line[..n]))
    {
      line[n] := NUL;
      assert line[..][..n] == old(line[..n]);
      StopsAtNul(line[..], n);
      text := CString(line[..]);
    }

    /** One round of the drain loop, with what it printed. */
    method PrintRound(line: array<byte>, wasCycle: bool) returns (text: seq<byte>, cycle: bool)
      requires Valid(View()) && size >= LINE_MAX
      requires line != start && line.Length == LINE_MAX && (wasCycle ==> Content(View()) != [])
      modifies `readPos, `readReverse, line
      ensures Valid(View())
      ensures Drained(old(Content(View()))) == text + Drained(Content(View()))
      ensures cycle <==> Content(View()) != []
      ensures cycle ==> |Content(View())| < |old(Content(View()))|
    {
      var readbytes;
      readbytes, cycle := TakeLine(line, wasCycle);
      text := [];
      if readbytes > 0 {
        text := PrintLine(line, readbytes);
      }
    }

    /** trace_print_until_zero with nobody writing: it ends, and has drained the whole content and
        printed it line by line. */
    method PrintUntilZero() returns (out: seq<byte>)
      requires Valid(View()) && size >= LINE_MAX
      modifies `readPos, `readReverse
      ensures Valid(View()) && UsedSpace(View()) == 0
      ensures out == Drained(old(Content(View()))) && Prints(out, old(Content(View())))
    {
      DrainedPrints(Content(View()));
      var line := new byte[LINE_MAX];
      var text, cycle := PrintRound(line, false);
      out := text;
      while cycle
        invariant Valid(View())
        invariant Drained(old(Content(View()))) == out + Drained(Content(View()))
        invariant cycle <==> Content(View()) != []
        decreases |Content(View())|
      {
        text, cycle := PrintRound(line, cycle);
        out := out + text;
      }
      SpaceIsContent(View());
    }
  }

  /** What the drain loop prints of a content: each line's worth of it up to its first NUL. */
  function Drained(c: seq<byte>): seq<byte>
    decreases |c|
  {
    if c == [] then []
    else
      var n := if |c| > READ_MAX then READ_MAX else |c|;
      CString(c[..n]) + Drained(c[n..])
  }

  /** That is all of it if there is no NUL, and less if there is one. */
  lemma {:induction false} DrainedPrints(c: seq<byte>)
    ensures Prints(Drained(c), c)
    decreases |c|
  {
    if c != [] {
      var n := if |c| > READ_MAX then READ_MAX else |c|;
      DrainedPrints(c[n..]);
      CStringWhole(c[..n]);
      assert c == c[..n] + c[n..];
    }
  }

  function Joined(lines: seq<seq<byte>>): seq<byte> {
    if lines == [] then [] else lines[0] + Joined(lines[1..])
  }

  /** The text of each line: what it holds up to its first NUL. */
  function Texts(lines: seq<seq<byte>>): seq<byte> {
    if lines == [] then [] else CString(lines[0]) + Texts(lines[1..])
  }

  /** The drain loop prints line by line: a NUL ends the line it is in, and none after it. */
  lemma {:induction false} DrainedByLines(lines: seq<seq<byte>>, last: seq<byte>)
    requires (forall i :: 0 <= i < |lines| ==> |lines[i]| == READ_MAX) && |last| <= READ_MAX
    ensures Drained(Joined(lines) + last) == Texts(lines) + CString(last)
  {
    if lines == [] {
      assert Joined(lines) + last == last && last[..|last|] == last && last[|last|..] == [];
      assert Drained([]) == [] && CString(last) + [] == CString(last) == [] + CString(last);
    } else {
      var more := Joined(lines[1..]) + last;
      var all := Joined(lines) + last;
      assert all == lines[0] + more;
      DrainedByLines(lines[1..], last);
      DrainedFirst(lines[0], more);
      assert CString(lines[0]) + (Texts(lines[1..]) + CString(last)) == Texts(lines) + CString(last);
    }
  }

  lemma DrainedFirst(line: seq<byte>, more: seq<byte>)
    requires |line| == READ_MAX
    ensures Drained(line + more) == CString(line) + Drained(more)
  {
    var all := line + more;
    assert all[..READ_MAX] == line && all[READ_MAX..] == more;
    if more == [] {
      assert all == line && all[..|all|] == line && all[|all|..] == more;
    }
  }

  /** A fetch that reaches the end of the cells is the two copies made there. */
  lemma FetchedPieces(cells: seq<byte>, pos: nat, n: nat)
    requires pos <= |cells| && |cells| - pos <= n <= |cells|
    ensures Fetched(cells, pos, n) == Strncpy(cells[pos..]) + Strncpy(cells[..n - |cells| + pos])
  {
    assert cells[pos..|cells|] == cells[pos..];
  }

  lemma {:induction false} StrncpyAt(s: seq<byte>, i: nat, k: nat)
    requires i <= |s| && (forall j :: 0 <= j < i ==> s[j] != NUL) && (i < |s| ==> s[i] == NUL) && k < |s|
    ensures Strncpy(s)[k] == if k < i then s[k] else NUL
  {
    if i > 0 && k > 0 {
      StrncpyAt(s[1..], i - 1, k - 1);
    }
  }

  /** "%s" of a buffer terminated at n prints what it would print of the first n bytes. */
  lemma {:induction false} StopsAtNul(s: seq<byte>, n: nat)
    requires n < |s| && s[n] == NUL
    ensures CString(s) == CString(s[..n])
  {
    if n > 0 && s[0] != NUL {
      assert s[1..][..n - 1] == s[..n][1..];
      StopsAtNul(s[1..], n - 1);
    }
  }
}
