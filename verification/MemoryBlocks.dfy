/**
 The table of task stacks (src/memory.c): 64 blocks of 1 MiB, handed out first-fit
 and zeroed when given back. A block pointer is a block number, and NO_BLOCK is null.
 */
module MemoryBlocks {
  import opened CInts

  const BLOCKS: nat := 64
  const BLOCK_SIZE: nat := 0x100000
  const NO_BLOCK: int := -1

  function Zeroes(): (r: seq<Byte>) {
    seq(BLOCK_SIZE, _ => 0 as Byte)
  }

  /** The lowest unused block at or above i, or NO_BLOCK. */
  function FirstFree(used: seq<bool>, i: int): (r: int)
    requires 0 <= i <= |used|
    ensures r == NO_BLOCK <==> forall b :: i <= b < |used| ==> used[b]
    ensures r != NO_BLOCK ==> i <= r < |used| && !used[r] && forall b :: i <= b < r ==> used[b]
    decreases |used| - i
  {
    if i == |used| then NO_BLOCK else if !used[i] then i else FirstFree(used, i + 1)
  }

  class BlockTable {
    const used: array<bool>
    const data: array<seq<Byte>>

    ghost function Repr(): (r: set<object>) {
      {this, used, data}
    }

    ghost predicate Valid()
      reads this, used, data
    {
      && used.Length == BLOCKS && data.Length == BLOCKS
      && (forall b :: 0 <= b < BLOCKS ==> |data[b]| == BLOCK_SIZE)
    }

    /** memory_init */
    constructor ()
      ensures Valid() && fresh(Repr())
      ensures used[..] == seq(BLOCKS, _ => false) && data[..] == seq(BLOCKS, _ => Zeroes())
    {
      used := new bool[BLOCKS](_ => false);
      data := new seq<Byte>[BLOCKS](_ => Zeroes());
    }

    /** memory_allocate_block */
    method Allocate() returns (block: int)
      requires Valid()
      modifies used
      ensures Valid()
      ensures block == FirstFree(old(used[..]), 0)
      ensures used[..] == if block == NO_BLOCK then old(used[..]) else old(used[..])[block := true]
    {
      var i := 0;
      while i < BLOCKS
        invariant 0 <= i <= BLOCKS
        invariant used[..] == old(used[..])
        invariant FirstFree(used[..], 0) == FirstFree(used[..], i)
      {
        if !used[i] {
          used[i] := true;
          return i;
        }
        i := i + 1;
      }
      block := NO_BLOCK;
    }

    /** memory_free_block */
    method Free(block: int)
      requires Valid() && 0 <= block < BLOCKS
      modifies used, data
      ensures Valid()
      ensures used[..] == old(used[..])[block := false]
      ensures data[..] == old(data[..])[block := Zeroes()]
    {
      var i := 0;
      while i < BLOCK_SIZE
        invariant 0 <= i <= BLOCK_SIZE
        invariant used[..] == old(used[..]) && |data[block]| == BLOCK_SIZE
        invariant forall j :: 0 <= j < i ==> data[block][j] == 0
        invariant forall b :: 0 <= b < BLOCKS && b != block ==> data[b] == old(data[b])
      {
        data[block] := data[block][i := 0];
        i := i + 1;
      }
      assert data[block] == Zeroes();
      used[block] := false;
    }
  }
}
