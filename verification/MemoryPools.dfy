/**
 The fixed-chunk allocator of src/memory_pool.c: a stack of the chunks not in use. A
 chunk pointer is a chunk number; `data` is what the chunks hold.
 */
module MemoryPools {
  import opened Filing

  const POOL_BYTES: nat := 0x10000
  const CHUNK_BYTES: nat := 0x80
  const CHUNKS: nat := POOL_BYTES / CHUNK_BYTES

  class MemoryPool<T(0)> {
    const data: array<T>
    const unused: array<int>
    var unusedTop: int

    ghost function Repr(): (r: set<object>) {
      {this, data, unused}
    }

    ghost predicate Valid()
      reads this, unused
    {
      && data.Length == CHUNKS && unused.Length == CHUNKS && 0 <= unusedTop <= CHUNKS
      && (forall i :: 0 <= i < unusedTop ==> 0 <= unused[i] < CHUNKS)
      && NoDuplicates(unused[..unusedTop])
    }

    /** The chunks that may be handed out, the next one last. */
    function Unused(): (r: seq<int>)
      requires Valid()
      reads this, unused
    {
      unused[..unusedTop]
    }

    /** memory_pool_init */
    constructor ()
      ensures Valid() && fresh(Repr())
      ensures |Unused()| == CHUNKS
    {
      data := new T[CHUNKS];
      unused := new int[CHUNKS];
      unusedTop := 0;
      new;
      while unusedTop < CHUNKS
        modifies this`unusedTop, unused
        invariant 0 <= unusedTop <= CHUNKS
        invariant forall j :: 0 <= j < unusedTop ==> unused[j] == j
      {
        unused[unusedTop] := unusedTop;
        unusedTop := unusedTop + 1;
      }
    }

    /** memory_pool_allocate: a chunk nobody has, or NULL when there is none. */
    method Allocate(size: nat) returns (chunk: int)
      requires Valid() && size <= CHUNK_BYTES
      modifies this`unusedTop
      ensures Valid()
      ensures old(Unused()) == [] ==> chunk == NONE && Unused() == []
      ensures old(Unused()) != [] ==> Unused() + [chunk] == old(Unused())
    {
      if unusedTop > 0 {
        unusedTop := unusedTop - 1;
        return unused[unusedTop];
      }
      chunk := NONE;
    }

    /** memory_pool_free: gives back a chunk that is in use. */
    method Free(chunk: int)
      requires Valid() && 0 <= chunk < CHUNKS && chunk !in Unused()
      modifies this`unusedTop, unused
      ensures Valid() && Unused() == old(Unused()) + [chunk]
    {
      Pigeonhole(Unused(), CHUNKS);
      unused[unusedTop] := chunk;
      unusedTop := unusedTop + 1;
      assert unused[..unusedTop] == old(unused[..unusedTop]) + [chunk];
    }
  }
}
