/** src/mem_block.c: the cache of freed block headers, and the gathering of several blocks into
    one buffer. */
module MemBlock {
  import opened Base
  import opened IntrusiveList

  const MAX_CACHE_COUNT := 128
  const MAX_GATHER_MEM := 65536

  /** cache_heads and cache_counts. The ghost set held names the headers handed out and not yet
      given back. */
  class Cache {
    const heads: ListHead<()>
    var counts: int
    ghost var ring: seq<ListHead<()>>
    ghost var held: set<ListHead<()>>

    ghost predicate Valid()
      reads this, ring
    {
      && Ring(ring) && ring[0] == heads
      && counts == |ring| - 1 <= MAX_CACHE_COUNT
      && (forall i :: 0 <= i < |ring| ==> ring[i] !in held)
    }

    /** init_memblock_facility */
    constructor ()
      ensures Valid() && held == {} && |ring| == 1
    {
      var h := new ListHead<()>(());
      heads, counts, ring, held := h, 0, [h], {};
    }

    /** alloc_memblock: the most recently freed header, or a new one when the cache is empty. */
    method Alloc() returns (mb: ListHead<()>)
      requires Valid() && forall n :: n in held ==> allocated(n)
      modifies this, ring
      ensures Valid() && mb !in old(held) && held == old(held) + {mb}
      ensures if old(counts) > 0 then mb == old(ring[1]) && ring == [heads] + old(ring)[2..]
              else fresh(mb) && ring == old(ring)
    {
      if counts > 0 {
        mb := heads.next;
        DeleteFirst(mb, heads, ring);
        assert mb !in ring[2..] && mb != heads;
        ring := [heads] + ring[2..];
        counts := counts - 1;
      } else {
        mb := new ListHead<()>(());
      }
      held := held + {mb};
    }

    /** free_memblock after finalize: the header is cached unless the cache is full. */
    method Free(mb: ListHead<()>) returns (cached: bool)
      requires Valid() && mb in held
      modifies this, ring, mb
      ensures Valid() && held == old(held) - {mb} && cached == (old(counts) < MAX_CACHE_COUNT)
      ensures ring == if cached then [heads, mb] + old(ring)[1..] else old(ring)
    {
      held := held - {mb};
      if counts < MAX_CACHE_COUNT {
        Add(mb, heads, ring);
        ring := [heads, mb] + ring[1..];
        counts := counts + 1;
        return true;
      }
      return false;
    }

    /** Freeing and allocating again gives the same header back, and the cache as it was. */
    method FreeThenAlloc(mb: ListHead<()>) returns (again: ListHead<()>)
      requires Valid() && mb in held && counts < MAX_CACHE_COUNT && forall n :: n in held ==> allocated(n)
      modifies this, ring, mb
      ensures Valid() && again == mb && held == old(held) && ring == old(ring)
    {
      var _ := Free(mb);
      again := Alloc();
      assert ring == old(ring);
    }
  }

  /** An mb_t with its memory: size bytes of ptr are in use, b_size is ptr.Length. */
  class Gather {
    const ptr: array<byte>
    var seqNo: uint32
    var offset: nat
    var size: nat

    ghost predicate Valid()
      reads this
    {
      offset <= size <= ptr.Length <= MAX_GATHER_MEM
    }

    /** The bytes still to be sent. */
    ghost function Tail(): seq<byte>
      requires Valid()
      reads this, ptr
    {
      ptr[offset..size]
    }

    /** The block that alloc_gather_memblock hands out. */
    constructor (n: nat)
      requires n <= MAX_GATHER_MEM
      ensures Valid() && fresh(ptr) && ptr.Length == n && Tail() == [] && size == offset == 0 && seqNo == 0
    {
      ptr := new byte[n](_ => 0);
      seqNo, offset, size := 0, 0, 0;
    }

    /** gather_memblock: the unsent bytes of mb are appended if all of them fit, and the gathering
        block takes over the sequence number; otherwise nothing changes. */
    method Append(mb: Gather) returns (ok: bool)
      requires Valid() && mb.Valid() && mb != this && mb.ptr != ptr
      modifies `size, `seqNo, ptr
      ensures Valid() && ok == (old(size) + |mb.Tail()| <= ptr.Length)
      ensures Tail() == old(Tail()) + if ok then mb.Tail() else []
      ensures seqNo == (if ok then mb.seqNo else old(seqNo)) && size == old(size) + if ok then |mb.Tail()| else 0
    {
      var n, left := mb.size - mb.offset, ptr.Length - size;
      if n > left {
        return false;
      }
      ghost var before := ptr[..];
      for i := 0 to n
        invariant size == old(size)
        invariant forall k :: 0 <= k < ptr.Length ==>
          ptr[k] == if size <= k < size + i then mb.ptr[mb.offset + k - size] else before[k]
      {
        ptr[size + i] := mb.ptr[mb.offset + i];
      }
      size := size + n;
      seqNo := mb.seqNo;
      return true;
    }
  }

  /** alloc_gather_memblock: NULL for more than MAX_GATHER_MEM bytes. */
  method AllocGather(size: uint32) returns (g: Gather?)
    ensures g == null <==> size > MAX_GATHER_MEM
    ensures g != null ==>
              && fresh(g) && fresh(g.ptr) && g.Valid() && g.ptr.Length == size
              && g.Tail() == [] && g.size == g.offset == 0 && g.seqNo == 0
  {
    if size > MAX_GATHER_MEM {
      return null;
    }
    g := new Gather(size);
  }
}
