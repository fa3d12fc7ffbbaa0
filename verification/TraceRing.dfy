/** The circular trace buffer of src/trace.c as a value: two positions that range over
    0..size inclusive, each with a 32-bit lap counter, over a fixed array of cells.
    The abstract content of the buffer is the byte sequence still to be read. */
module TraceRing {
  import opened Base

  const NUL: byte := 0

  datatype Ring = Ring(
    size: uint32, cells: seq<byte>,
    readPos: uint32, readLap: uint32, writePos: uint32, writeLap: uint32)

  function FreeSpace(r: Ring): uint32 {
    if r.readLap == r.writeLap then Wrap(r.size - r.writePos + r.readPos)
    else if Wrap(r.writeLap - r.readLap) == 1 then Wrap(r.readPos - r.writePos)
    else 0
  }

  function UsedSpace(r: Ring): uint32 {
    if r.readLap == r.writeLap then Wrap(r.writePos - r.readPos)
    else if Wrap(r.writeLap - r.readLap) == 1 then Wrap(r.size - r.readPos + r.writePos)
    else r.size
  }

  /** What the C library's strncpy leaves in the first |s| bytes of its destination:
      the source up to its first NUL, then padding. */
  function Strncpy(s: seq<byte>): (d: seq<byte>)
    ensures |d| == |s|
  {
    if s == [] then []
    else if s[0] == NUL then seq(|s|, _ => NUL)
    else [s[0]] + Strncpy(s[1..])
  }

  /** What printf's "%s" prints of a NUL-terminated copy of s. */
  function CString(s: seq<byte>): (d: seq<byte>)
    ensures |d| <= |s|
  {
    if s == [] || s[0] == NUL then [] else [s[0]] + CString(s[1..])
  }

  /** One position advanced by len, wrapping when it passes (not reaches) the end. */
  function Advance(size: uint32, pos: uint32, lap: uint32, len: nat): (r: (uint32, uint32))
    requires size > 0
  {
    var p := Wrap(pos + len);
    if p > size then (p % size, Wrap(lap + 1)) else (p, lap)
  }

  /** Positions and lap counters of a buffer in use: the laps differ by 0 or 1 modulo 2^32,
      and the positions are ordered accordingly. */
  ghost predicate Valid(r: Ring) {
    && 0 < r.size < U32 / 2
    && |r.cells| == r.size
    && r.readPos <= r.size && r.writePos <= r.size
    && (r.readLap == r.writeLap ==> r.readPos <= r.writePos)
    && (r.readLap != r.writeLap ==> Wrap(r.writeLap - r.readLap) == 1 && r.writePos <= r.readPos)
  }

  /** The used region from position from to position to, going round the end if ahead. */
  function Span(cells: seq<byte>, from: nat, to: nat, ahead: bool): seq<byte>
    requires from <= |cells| && to <= |cells| && (!ahead ==> from <= to)
  {
    if ahead then cells[from..] + cells[..to] else cells[from..to]
  }

  /** The bytes written and not yet read, oldest first. */
  function Content(r: Ring): seq<byte>
    requires Valid(r)
  {
    Span(r.cells, r.readPos, r.writePos, r.readLap != r.writeLap)
  }

  /** cells with s copied over it from position at, as memcpy does. */
  function Overwrite(cells: seq<byte>, at: nat, s: seq<byte>): (c: seq<byte>)
    requires at + |s| <= |cells|
    ensures |c| == |cells|
  {
    seq(|cells|, i requires 0 <= i < |cells| => if at <= i < at + |s| then s[i - at] else cells[i])
  }

  /** The cells after s is copied in from position pos, in two pieces when it passes the end. */
  function Stored(cells: seq<byte>, pos: nat, s: seq<byte>): (c: seq<byte>)
    requires pos <= |cells| && |s| <= |cells|
    ensures |c| == |cells|
  {
    if pos + |s| > |cells| then
      var split := |cells| - pos;
      Overwrite(Overwrite(cells, pos, s[..split]), 0, s[split..])
    else Overwrite(cells, pos, s)
  }

  /** The bytes that a read of n cells from position pos leaves in its destination. */
  function Fetched(cells: seq<byte>, pos: nat, n: nat): (c: seq<byte>)
    requires pos <= |cells| && n <= |cells|
    ensures |c| == n
  {
    if pos + n <= |cells| then Strncpy(cells[pos..pos + n])
    else Strncpy(cells[pos..]) + Strncpy(cells[..n - |cells| + pos])
  }

  /** The part of async_ring_buf_write that runs in its second critical section. */
  function Write(r: Ring, s: seq<byte>): Ring
    requires Valid(r) && |s| <= r.size
  {
    var (pos, lap) := Advance(r.size, r.writePos, r.writeLap, |s|);
    r.(cells := Stored(r.cells, r.writePos, s), writePos := pos, writeLap := lap)
  }

  /** How many bytes a read of up to len takes. */
  function ReadCount(r: Ring, len: nat): nat
    requires Valid(r)
  {
    if r.readLap == r.writeLap then Min(len, r.writePos - r.readPos)
    else if len <= r.size - r.readPos then len
    else Min(len, r.size - r.readPos + r.writePos)
  }

  /** async_ring_buf_read: the new ring and the bytes left in the destination. */
  function Read(r: Ring, len: nat): (Ring, seq<byte>)
    requires Valid(r)
  {
    var chunk := Fetched(r.cells, r.readPos, ReadCount(r, len));
    var (pos, lap) := Advance(r.size, r.readPos, r.readLap, |chunk|);
    (r.(readPos := pos, readLap := lap), chunk)
  }

  // ----- Lap discipline -----

  lemma WrapSmall(x: int)
    ensures 0 <= x < U32 ==> Wrap(x) == x
    ensures -U32 <= x < 0 ==> Wrap(x) == x + U32
  {
  }

  /** Incrementing the writer's lap counter moves the difference from 0 to 1, incrementing the
      reader's moves it from 1 to 0, and in no other way are the counters equal. */
  lemma LapDifference(w: uint32, r: uint32)
    ensures w == r ==> Wrap(Wrap(w + 1) - r) == 1 && Wrap(w + 1) != r
    ensures Wrap(w - r) == 1 ==> Wrap(r + 1) == w && w != r
  {
  }

  lemma ModOnce(x: nat, size: nat)
    requires 0 < size <= x <= 2 * size
    ensures x % size == if x == 2 * size then 0 else x - size
  {
    var k := if x == 2 * size then 2 else 1;
    assert x == k * size + (x - k * size) && 0 <= x - k * size < size;
  }

  lemma AdvanceOnce(size: uint32, pos: uint32, lap: uint32, len: nat)
    requires 0 < size < U32 / 2 && pos <= size && len <= size
    ensures var (p, l) := Advance(size, pos, lap, len);
            if pos + len <= size then p == pos + len && l == lap
            else l == Wrap(lap + 1) && p == if pos + len == 2 * size then 0 else pos + len - size
  {
    WrapSmall(pos + len);
    if pos + len > size {
      ModOnce(pos + len, size);
    }
  }

  /** The two space functions agree with the content, they add up to the whole buffer, and
      the branch of async_ring_buf_read that asserts 0 is not reached. */
  lemma SpaceIsContent(r: Ring)
    requires Valid(r)
    ensures UsedSpace(r) == |Content(r)|
    ensures UsedSpace(r) + FreeSpace(r) == r.size
    ensures r.readLap == r.writeLap || Wrap(r.writeLap - r.readLap) == 1
  {
    WrapSmall(r.size - r.writePos + r.readPos);
    WrapSmall(r.readPos - r.writePos);
    WrapSmall(r.writePos - r.readPos);
    WrapSmall(r.size - r.readPos + r.writePos);
  }

  // ----- The buffer is a FIFO of bytes -----

  /** Where a write that fits leaves the writer: it passes the end only if it was on the
      reader's lap, and then it is one lap ahead and at most level with the reader. */
  lemma WriteKeepsValid(r: Ring, s: seq<byte>)
    requires Valid(r) && |s| <= FreeSpace(r)
    ensures |s| <= r.size && Valid(Write(r, s))
    ensures var q := Write(r, s); q.readPos == r.readPos && q.readLap == r.readLap && q.size == r.size
    ensures var q := Write(r, s);
            if r.writePos + |s| <= r.size then
              q.writePos == r.writePos + |s| && q.writeLap == r.writeLap
            else
              && r.readLap == r.writeLap && q.readLap != q.writeLap
              && q.writePos == if r.writePos + |s| == 2 * r.size then 0 else r.writePos + |s| - r.size
  {
    SpaceIsContent(r);
    AdvanceOnce(r.size, r.writePos, r.writeLap, |s|);
    LapDifference(r.writeLap, r.readLap);
  }

  /** Where each cell comes from when a write passes the end. */
  lemma StoredRoundAt(cells: seq<byte>, to: nat, s: seq<byte>, k: nat)
    requires to <= |cells| < to + |s| && |s| <= |cells| && k < |cells|
    ensures var split := |cells| - to;
            Stored(cells, to, s)[k] == if k < |s| - split then s[split + k] else if k >= to then s[k - to] else cells[k]
  {
    var split := |cells| - to;
    var first := Overwrite(cells, to, s[..split]);
    assert first[k] == if to <= k then s[k - to] else cells[k];
    assert Stored(cells, to, s) == Overwrite(first, 0, s[split..]);
  }

  lemma StoredAhead(cells: seq<byte>, from: nat, to: nat, s: seq<byte>)
    requires from <= to <= |cells| < to + |s| <= |cells| + from && |s| <= |cells|
    ensures Stored(cells, to, s)[from..] == cells[from..to] + s[..|cells| - to]
  {
    var c, n := Stored(cells, to, s), |cells| - to;
    forall k | from <= k < |cells| ensures c[k] == if k < to then cells[k] else s[k - to] {
      StoredRoundAt(cells, to, s, k);
    }
    assert c[from..] == c[from..to] + c[to..];
    assert c[from..to] == cells[from..to] && c[to..] == s[..n];
  }

  lemma StoredBehind(cells: seq<byte>, to: nat, s: seq<byte>)
    requires to <= |cells| < to + |s| && |s| <= |cells|
    ensures Stored(cells, to, s)[..to + |s| - |cells|] == s[|cells| - to..]
  {
    forall k | 0 <= k < to + |s| - |cells| ensures Stored(cells, to, s)[k] == s[|cells| - to + k] {
      StoredRoundAt(cells, to, s, k);
    }
  }

  lemma Rejoin(a: seq<byte>, s: seq<byte>, k: nat)
    requires k <= |s|
    ensures (a + s[..k]) + s[k..] == a + s
  {
  }

  lemma SpanStoredRound(cells: seq<byte>, from: nat, to: nat, s: seq<byte>)
    requires from <= to <= |cells| < to + |s| <= |cells| + from && |s| <= |cells|
    ensures Stored(cells, to, s)[from..] + Stored(cells, to, s)[..to + |s| - |cells|] == cells[from..to] + s
  {
    StoredAhead(cells, from, to, s);
    StoredBehind(cells, to, s);
    Rejoin(cells[from..to], s, |cells| - to);
  }

  lemma SpanStored(cells: seq<byte>, from: nat, to: nat, ahead: bool, s: seq<byte>)
    requires from <= |cells| && to <= |cells| && (!ahead ==> from <= to)
    requires if ahead then to + |s| <= from else to + |s| <= |cells| + from
    requires !(to == |cells| && |s| == |cells|) && |s| <= |cells|
    ensures var round := to + |s| > |cells|;
            Span(Stored(cells, to, s), from, if round then to + |s| - |cells| else to + |s|, ahead || round)
            == Span(cells, from, to, ahead) + s
  {
    var c := Stored(cells, to, s);
    if ahead {
      assert c[from..] == cells[from..];
      assert c[..to + |s|] == cells[..to] + s;
    } else if to + |s| > |cells| {
      SpanStoredRound(cells, from, to, s);
    }
  }

  /** A write of the whole size that starts at the end position. */
  predicate WholeAtEnd(r: Ring, s: seq<byte>) {
    r.writePos == r.size == |s|
  }

  /** A write that fits appends its bytes exactly when it is not a whole-buffer write starting
      at the end position: there the single lap increment loses a lap, and the bytes with it. */
  lemma WriteAppends(r: Ring, s: seq<byte>)
    requires Valid(r) && |s| <= FreeSpace(r)
    ensures |s| <= r.size && Valid(Write(r, s)) && Write(r, s).size == r.size
    ensures Content(Write(r, s)) == Content(r) + s <==> !WholeAtEnd(r, s)
    ensures WholeAtEnd(r, s) ==> s != [] && Content(r) == Content(Write(r, s)) == []
  {
    WriteKeepsValid(r, s);
    var q := Write(r, s);
    if WholeAtEnd(r, s) {
      SpaceIsContent(r);
      assert q.writePos == 0 && q.readLap != q.writeLap && r.readPos == r.size;
      assert Content(q) == [];
    } else {
      SpanStored(r.cells, r.readPos, r.writePos, r.readLap != r.writeLap, s);
    }
  }

  /** A one-byte buffer with both positions at its end: the byte fits, and is lost. */
  lemma WholeBufferWriteIsLost()
    ensures var r := Ring(1, [NUL], 1, 0, 1, 0);
            && Valid(r) && FreeSpace(r) == 1
            && Valid(Write(r, [65])) && Content(Write(r, [65])) == [] && UsedSpace(Write(r, [65])) == 0
  {
    var r := Ring(1, [NUL], 1, 0, 1, 0);
    AdvanceOnce(1, 1, 0, 1);
    assert Write(r, [65]).writePos == 0 && Write(r, [65]).writeLap == 1;
    assert Content(Write(r, [65])) == [];
    SpaceIsContent(Write(r, [65]));
  }

  /** Printing prints everything exactly when there is no NUL, and less if there is one. */
  lemma {:induction false} CStringWhole(s: seq<byte>)
    ensures CString(Strncpy(s)) == CString(s)
    ensures if NUL in s then |CString(s)| < |s| else CString(s) == s
  {
    if s != [] && s[0] != NUL {
      CStringWhole(s[1..]);
      assert Strncpy(s)[1..] == Strncpy(s[1..]);
      assert s == [s[0]] + s[1..];
    }
  }

  lemma {:induction false} CStringJoin(a: seq<byte>, b: seq<byte>)
    ensures CString(a + b) == if NUL in a then CString(a) else a + CString(b)
  {
    if a == [] {
      assert a + b == b;
    } else if a[0] != NUL {
      var rest := a[1..];
      CStringJoin(rest, b);
      assert (a + b)[0] == a[0] && (a + b)[1..] == rest + b;
      assert a == [a[0]] + rest;
      if NUL !in rest {
        assert [a[0]] + (rest + CString(b)) == a + CString(b);
      }
    } else {
      assert (a + b)[0] == NUL;
    }
  }

  /** chunk is s as far as strncpy copies it: it prints the same, and is the same if there is no NUL. */
  predicate Copies(chunk: seq<byte>, s: seq<byte>) {
    |chunk| == |s| && (NUL in chunk <==> NUL in s) && (NUL !in s ==> chunk == s) && CString(chunk) == CString(s)
  }

  lemma {:induction false} StrncpyNul(s: seq<byte>)
    ensures NUL in Strncpy(s) <==> NUL in s
    ensures NUL !in s ==> Strncpy(s) == s
  {
    if s != [] && s[0] != NUL {
      StrncpyNul(s[1..]);
      assert s == [s[0]] + s[1..];
    } else if s != [] {
      assert Strncpy(s)[0] == NUL;
    }
  }

  lemma StrncpyCopies(s: seq<byte>)
    ensures Copies(Strncpy(s), s)
  {
    StrncpyNul(s);
    CStringWhole(s);
  }

  lemma CopiesJoin(a: seq<byte>, x: seq<byte>, b: seq<byte>, y: seq<byte>)
    requires Copies(a, x) && Copies(b, y)
    ensures Copies(a + b, x + y)
  {
    assert NUL in a + b <==> NUL in a || NUL in b;
    assert NUL in x + y <==> NUL in x || NUL in y;
    CStringJoin(a, b);
    CStringJoin(x, y);
  }

  lemma TakeOfTwo(a: seq<byte>, b: seq<byte>, n: nat)
    requires |a| <= n <= |a| + |b|
    ensures (a + b)[..n] == a + b[..n - |a|]
  {
  }

  /** A fetch that passes the end of the cells. */
  lemma FetchedRound(cells: seq<byte>, from: nat, to: nat, n: nat)
    requires from <= |cells| && to <= |cells| && |cells| - from < n <= |cells| - from + to && n <= |cells|
    ensures Copies(Fetched(cells, from, n), (cells[from..] + cells[..to])[..n])
  {
    var m := n - (|cells| - from);
    var x, y := cells[from..], cells[..m];
    assert cells[..to][..m] == y;
    TakeOfTwo(x, cells[..to], n);
    StrncpyCopies(x);
    StrncpyCopies(y);
    CopiesJoin(Strncpy(x), x, Strncpy(y), y);
    assert Fetched(cells, from, n) == Strncpy(x) + Strncpy(y);
  }

  lemma FetchedIsSpan(cells: seq<byte>, from: nat, to: nat, ahead: bool, n: nat)
    requires from <= |cells| && to <= |cells| && (!ahead ==> from <= to)
    requires n <= |Span(cells, from, to, ahead)| && n <= |cells|
    ensures Copies(Fetched(cells, from, n), Span(cells, from, to, ahead)[..n])
  {
    if from + n <= |cells| {
      var s := cells[from..from + n];
      assert s == Span(cells, from, to, ahead)[..n] && Fetched(cells, from, n) == Strncpy(s);
      StrncpyCopies(s);
    } else {
      FetchedRound(cells, from, to, n);
    }
  }

  lemma SpanDrop(cells: seq<byte>, from: nat, to: nat, ahead: bool, n: nat)
    requires from <= |cells| && to <= |cells| && (!ahead ==> from <= to)
    requires n <= |Span(cells, from, to, ahead)| && n < |cells|
    ensures var round := from + n > |cells|;
            && (round ==> ahead && from + n - |cells| <= to)
            && Span(cells, if round then from + n - |cells| else from + n, to, ahead && !round)
               == Span(cells, from, to, ahead)[n..]
  {
  }

  lemma ReadKeepsValid(r: Ring, len: nat)
    requires Valid(r) && len < r.size
    ensures var (q, chunk) := Read(r, len);
            && |chunk| == Min(len, UsedSpace(r)) && Valid(q) && q.cells == r.cells
            && q.writePos == r.writePos && q.size == r.size
            && if r.readPos + |chunk| <= r.size then
                 q.readPos == r.readPos + |chunk| && (q.readLap == q.writeLap) == (r.readLap == r.writeLap)
               else
                 q.readPos == r.readPos + |chunk| - r.size && q.readLap == q.writeLap
  {
    SpaceIsContent(r);
    AdvanceOnce(r.size, r.readPos, r.readLap, |Read(r, len).1|);
    LapDifference(r.writeLap, r.readLap);
  }

  /** A read of less than the whole buffer takes the oldest bytes and leaves the rest. */
  lemma ReadTakesOldest(r: Ring, len: nat)
    requires Valid(r) && len < r.size
    ensures var (q, chunk) := Read(r, len);
            var n := Min(len, |Content(r)|);
            Valid(q) && Copies(chunk, Content(r)[..n]) && Content(q) == Content(r)[n..] && q.size == r.size
  {
    ReadKeepsValid(r, len);
    var (q, chunk) := Read(r, len);
    assert |chunk| == Min(len, |Content(r)|) by {
      SpaceIsContent(r);
    }
    FetchedIsSpan(r.cells, r.readPos, r.writePos, r.readLap != r.writeLap, |chunk|);
    SpanDrop(r.cells, r.readPos, r.writePos, r.readLap != r.writeLap, |chunk|);
    assert (q.readLap != q.writeLap) == (r.readLap != r.writeLap && r.readPos + |chunk| <= r.size);
  }
}
