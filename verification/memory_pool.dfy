/**
 * The bump allocator of memory_pool.c: a pool hands out 8-byte aligned
 * slices of its current block and, when a request does not fit, takes a new
 * block of POOL_BLOCK_SIZE data bytes from `malloc` and pushes it on the
 * `free_blocks` list, which `destroy_memory_pool` walks and frees.
 *
 * Addresses are modelled as block identities: a pointer handed out is a
 * block and an offset from that block's `data`. The address `malloc`
 * returns is an input (None for NULL), and a block identity `malloc` returns
 * is one the pool does not already hold.
 */
module MemoryPool {
  import opened Wrappers
  import opened Decimal

  /** POOL_BLOCK_SIZE: the data bytes of every block pool_alloc takes. */
  const POOL_BLOCK_SIZE: nat := 4096

  /** sizeof(void*) on the 64-bit targets: the alignment of every size handed out. */
  const POINTER_SIZE: nat := 8

  /** sizeof(pool_block_t): the `next` pointer, then the data bytes. */
  const BLOCK_HEADER_SIZE: nat := POINTER_SIZE + POOL_BLOCK_SIZE

  /**
   * `(size + sizeof(void*) - 1) & ~(sizeof(void*) - 1)` in size_t: the sum
   * wraps modulo 2^64, and clearing the low three bits rounds down to a
   * multiple of 8 (MaskRoundsDown).
   */
  function AlignUp(size: SizeT): SizeT {
    var t := (size + POINTER_SIZE - 1) % 0x1_0000_0000_0000_0000;
    t - t % POINTER_SIZE
  }

  /** Clearing the low bits with `& ~7` is subtracting the remainder modulo 8. */
  lemma MaskRoundsDown(x: bv64)
    ensures (x + 7) & !7 == (x + 7) - (x + 7) % 8
  {
  }

  /**
   * The rounded size is a multiple of 8, at least the request and less than
   * the request plus 8; only a request within 7 of 2^64 wraps, to 0.
   */
  lemma AlignUpBounds(size: SizeT)
    ensures AlignUp(size) % POINTER_SIZE == 0
    ensures size <= 0xFFFF_FFFF_FFFF_FFF8 ==> size <= AlignUp(size) < size + POINTER_SIZE
    ensures size > 0xFFFF_FFFF_FFFF_FFF8 ==> AlignUp(size) == 0
  {
  }

  /** A pointer into a block: `data + offset` of the block with this identity. */
  datatype Ptr = Ptr(block: nat, offset: nat)

  /** The fields of a `memory_pool_t`: the pushed blocks (head first), the current block and the bump offset in it. */
  datatype PoolState = PoolState(freeBlocks: seq<nat>, currentBlock: nat, currentPos: nat)

  /** What create_memory_pool leaves: no pushed blocks, the bump offset at the start of the first block. */
  function Initial(block: nat): PoolState {
    PoolState([], block, 0)
  }

  /**
   * One pool_alloc: the rounded request is served from the current block when
   * it ends within POOL_BLOCK_SIZE bytes of `data`; otherwise the block
   * `malloc` returned (None for NULL) is pushed and the request is served from
   * its start. The current block is never NULL after create_memory_pool, so
   * the `!pool->current_block` test never decides.
   */
  function AllocStep(s: PoolState, size: SizeT, block: Option<nat>): (PoolState, Option<Ptr>) {
    var a := AlignUp(size);
    if s.currentPos + a > POOL_BLOCK_SIZE then
      match block
      case None => (s, None)
      case Some(b) => (PoolState([b] + s.freeBlocks, b, a), Some(Ptr(b, 0)))
    else (PoolState(s.freeBlocks, s.currentBlock, s.currentPos + a), Some(Ptr(s.currentBlock, s.currentPos)))
  }

  /**
   * pool_alloc's three outcomes: a fitting request is served at the old bump
   * offset, which advances by exactly the rounded size with the lists
   * unchanged; a request that does not fit is served at the start of the
   * block malloc returned, now the head of free_blocks and the current block;
   * and when that malloc fails the result is NULL and the pool is unchanged.
   */
  lemma AllocOutcomes(s: PoolState, size: SizeT, block: Option<nat>)
    ensures var (t, p) := AllocStep(s, size, block);
      && (s.currentPos + AlignUp(size) <= POOL_BLOCK_SIZE ==>
            p == Some(Ptr(s.currentBlock, s.currentPos)) && t.currentPos == s.currentPos + AlignUp(size)
            && t.freeBlocks == s.freeBlocks && t.currentBlock == s.currentBlock)
      && (s.currentPos + AlignUp(size) > POOL_BLOCK_SIZE && block.Some? ==>
            p == Some(Ptr(block.value, 0)) && t.freeBlocks == [block.value] + s.freeBlocks
            && t.currentBlock == block.value && t.currentPos == AlignUp(size))
      && (p.None? <==> s.currentPos + AlignUp(size) > POOL_BLOCK_SIZE && block.None?)
      && (p.None? ==> t == s)
  {
  }

  /** One pool_alloc request: the size asked for and what the `malloc` for a new block would return. */
  datatype Request = Request(size: SizeT, block: Option<nat>)

  /** A run of pool_alloc calls on a fresh pool: the final fields and every returned pointer, in order. */
  function Run(first: nat, reqs: seq<Request>): (r: (PoolState, seq<Option<Ptr>>))
    ensures |r.1| == |reqs|
  {
    if reqs == [] then (Initial(first), [])
    else
      var (s, ptrs) := Run(first, reqs[..|reqs| - 1]);
      var (t, p) := AllocStep(s, reqs[|reqs| - 1].size, reqs[|reqs| - 1].block);
      (t, ptrs + [p])
  }

  /** Every block malloc returns is new: not the first block and not one returned before. */
  predicate FreshBlocks(first: nat, reqs: seq<Request>) {
    && (forall m :: 0 <= m < |reqs| && reqs[m].block.Some? ==> reqs[m].block.value != first)
    && (forall m1, m2 :: 0 <= m1 < m2 < |reqs| && reqs[m1].block.Some? && reqs[m2].block.Some? ==>
          reqs[m1].block.value != reqs[m2].block.value)
  }

  /** Pointer i and the rounded size asked for it lie before byte `end` of the block. */
  predicate EndsBy(reqs: seq<Request>, ptrs: seq<Option<Ptr>>, i: int, block: nat, end: nat)
    requires 0 <= i < |reqs| && |ptrs| == |reqs|
  {
    ptrs[i].Some? && ptrs[i].value.block == block ==> ptrs[i].value.offset + AlignUp(reqs[i].size) <= end
  }

  /**
   * What holds after the requests `past`, with the pool at `s` having returned
   * `ptrs`, and the requests `future` still to come.
   */
  predicate RunInvariant(past: seq<Request>, s: PoolState, ptrs: seq<Option<Ptr>>, future: seq<Request>)
    requires |ptrs| == |past|
  {
    && s.currentPos % POINTER_SIZE == 0
    && (forall i :: 0 <= i < |past| && ptrs[i].Some? ==> ptrs[i].value.offset % POINTER_SIZE == 0)
    && (forall i :: 0 <= i < |past| ==> EndsBy(past, ptrs, i, s.currentBlock, s.currentPos))
    && (forall i, j :: 0 <= i < j < |past| && ptrs[j].Some? ==>
          EndsBy(past, ptrs, i, ptrs[j].value.block, ptrs[j].value.offset))
    && (forall i, m :: 0 <= i < |past| && 0 <= m < |future| && ptrs[i].Some? && future[m].block.Some? ==>
          ptrs[i].value.block != future[m].block.value)
    && (forall m :: 0 <= m < |future| && future[m].block.Some? ==> s.currentBlock != future[m].block.value)
  }

  /** One more request keeps the invariant, when the block it may take is not one a later request takes. */
  lemma RunInvariantStep(past: seq<Request>, s: PoolState, ptrs: seq<Option<Ptr>>, r: Request, future: seq<Request>)
    requires |ptrs| == |past| && RunInvariant(past, s, ptrs, [r] + future)
    requires r.block.Some? ==> forall m :: 0 <= m < |future| && future[m].block.Some? ==> future[m].block.value != r.block.value
    ensures var (t, p) := AllocStep(s, r.size, r.block);
      RunInvariant(past + [r], t, ptrs + [p], future)
  {
    var (t, p) := AllocStep(s, r.size, r.block);
    var past', ptrs' := past + [r], ptrs + [p];
    var n := |past|;
    AlignUpBounds(r.size);
    forall i | 0 <= i < n
      ensures EndsBy(past', ptrs', i, t.currentBlock, t.currentPos)
    {
      assert EndsBy(past, ptrs, i, s.currentBlock, s.currentPos);
      assert past'[i] == past[i] && ptrs'[i] == ptrs[i];
      if p.Some? && p.value.block != s.currentBlock {
        assert ([r] + future)[0] == r;
      }
    }
    forall i, j | 0 <= i < j <= n && ptrs'[j].Some?
      ensures EndsBy(past', ptrs', i, ptrs'[j].value.block, ptrs'[j].value.offset)
    {
      assert past'[i] == past[i] && ptrs'[i] == ptrs[i];
      if j < n {
        assert EndsBy(past, ptrs, i, ptrs[j].value.block, ptrs[j].value.offset);
      } else {
        assert EndsBy(past, ptrs, i, s.currentBlock, s.currentPos);
        if p.value.block != s.currentBlock {
          assert ([r] + future)[0] == r;
        }
      }
    }
    forall i, m | 0 <= i <= n && 0 <= m < |future| && ptrs'[i].Some? && future[m].block.Some?
      ensures ptrs'[i].value.block != future[m].block.value
    {
      assert ([r] + future)[m + 1] == future[m];
      if i < n {
        assert ptrs'[i] == ptrs[i];
      }
    }
    forall m | 0 <= m < |future| && future[m].block.Some?
      ensures t.currentBlock != future[m].block.value
    {
      assert ([r] + future)[m + 1] == future[m];
    }
  }

  lemma RunPrefix(first: nat, reqs: seq<Request>, n: nat)
    requires n < |reqs|
    ensures var (s, ptrs) := Run(first, reqs[..n]);
      var (t, p) := AllocStep(s, reqs[n].size, reqs[n].block);
      Run(first, reqs[..n + 1]) == (t, ptrs + [p])
  {
    assert reqs[..n + 1][..n] == reqs[..n];
  }

  lemma {:induction false} RunInvariantHolds(first: nat, reqs: seq<Request>, n: nat)
    requires n <= |reqs| && FreshBlocks(first, reqs)
    ensures var (s, ptrs) := Run(first, reqs[..n]);
      RunInvariant(reqs[..n], s, ptrs, reqs[n..])
    decreases n
  {
    if n > 0 {
      RunInvariantHolds(first, reqs, n - 1);
      RunPrefix(first, reqs, n - 1);
      var (s, ptrs) := Run(first, reqs[..n - 1]);
      assert reqs[n - 1..] == [reqs[n - 1]] + reqs[n..];
      assert reqs[..n - 1] + [reqs[n - 1]] == reqs[..n];
      forall m | 0 <= m < |reqs[n..]| && reqs[n..][m].block.Some? && reqs[n - 1].block.Some?
        ensures reqs[n..][m].block.value != reqs[n - 1].block.value
      {
        assert reqs[n..][m] == reqs[n + m];
      }
      RunInvariantStep(reqs[..n - 1], s, ptrs, reqs[n - 1], reqs[n..]);
    }
  }

  /**
   * Over any run of pool_alloc calls on a fresh pool, every pointer handed out
   * is 8-byte aligned from its block's `data`, and two pointers in the same
   * block are handed out in increasing order with the earlier one's rounded
   * size ending at or before the later one: no two allocations overlap.
   */
  lemma RunDisjoint(first: nat, reqs: seq<Request>)
    requires FreshBlocks(first, reqs)
    ensures var (_, ptrs) := Run(first, reqs);
      && (forall i :: 0 <= i < |reqs| && ptrs[i].Some? ==> ptrs[i].value.offset % POINTER_SIZE == 0)
      && (forall i, j :: 0 <= i < j < |reqs| && ptrs[i].Some? && ptrs[j].Some? && ptrs[i].value.block == ptrs[j].value.block ==>
            ptrs[i].value.offset + AlignUp(reqs[i].size) <= ptrs[j].value.offset)
  {
    RunInvariantHolds(first, reqs, |reqs|);
    assert reqs[..|reqs|] == reqs;
    var (s, ptrs) := Run(first, reqs);
    forall i, j | 0 <= i < j < |reqs| && ptrs[i].Some? && ptrs[j].Some? && ptrs[i].value.block == ptrs[j].value.block
      ensures ptrs[i].value.offset + AlignUp(reqs[i].size) <= ptrs[j].value.offset
    {
      assert EndsBy(reqs, ptrs, i, ptrs[j].value.block, ptrs[j].value.offset);
    }
  }

  /** The requests whose rounded size fits in a block. */
  predicate SmallRequests(reqs: seq<Request>) {
    forall m :: 0 <= m < |reqs| ==> AlignUp(reqs[m].size) <= POOL_BLOCK_SIZE
  }

  lemma {:induction false} RunStaysInBlock(first: nat, reqs: seq<Request>)
    requires SmallRequests(reqs)
    ensures var (s, ptrs) := Run(first, reqs);
      && s.currentPos <= POOL_BLOCK_SIZE
      && forall i :: 0 <= i < |reqs| && ptrs[i].Some? ==> ptrs[i].value.offset + AlignUp(reqs[i].size) <= POOL_BLOCK_SIZE
    decreases |reqs|
  {
    if reqs != [] {
      var front := reqs[..|reqs| - 1];
      assert SmallRequests(front) by {
        forall m | 0 <= m < |front| ensures AlignUp(front[m].size) <= POOL_BLOCK_SIZE {
          assert front[m] == reqs[m];
        }
      }
      RunStaysInBlock(first, front);
      var (s, ptrs) := Run(first, front);
      var (t, p) := AllocStep(s, reqs[|reqs| - 1].size, reqs[|reqs| - 1].block);
      assert Run(first, reqs).1 == ptrs + [p];
      forall i | 0 <= i < |reqs| && (ptrs + [p])[i].Some?
        ensures (ptrs + [p])[i].value.offset + AlignUp(reqs[i].size) <= POOL_BLOCK_SIZE
      {
        if i < |front| {
          assert (ptrs + [p])[i] == ptrs[i] && front[i] == reqs[i];
        }
      }
    }
  }

  /** The data bytes the first block really has: create_memory_pool mallocs `size` bytes, the `next` pointer included. */
  function FirstBlockCapacity(size: int): int {
    size - POINTER_SIZE
  }

  /** The data bytes of a block: the first block's from its malloc size, POOL_BLOCK_SIZE for every other one. */
  function Capacity(first: nat, size: int, block: nat): int {
    if block == first then FirstBlockCapacity(size) else POOL_BLOCK_SIZE
  }

  /**
   * With requests that fit in a block and a first block of at least
   * sizeof(pool_block_t) bytes, every pointer handed out and its rounded size
   * lie inside the block it points into.
   */
  lemma RunInBounds(first: nat, size: int, reqs: seq<Request>)
    requires SmallRequests(reqs) && size >= BLOCK_HEADER_SIZE
    ensures var (_, ptrs) := Run(first, reqs);
      forall i :: 0 <= i < |reqs| && ptrs[i].Some? ==>
        ptrs[i].value.offset + AlignUp(reqs[i].size) <= Capacity(first, size, ptrs[i].value.block)
  {
    RunStaysInBlock(first, reqs);
  }

  /**
   * The capacity test compares against POOL_BLOCK_SIZE even in the first
   * block, which create_memory_pool(100) sizes at 92 data bytes: a first
   * request of 200 bytes is served from it and runs past its end.
   */
  lemma SmallFirstBlockOverruns(first: nat)
    ensures var (_, ptrs) := Run(first, [Request(200, None)]);
      ptrs == [Some(Ptr(first, 0))] && 0 + AlignUp(200) > Capacity(first, 100, first)
  {
    assert [Request(200, None)][..0] == [];
  }

  /** A request over POOL_BLOCK_SIZE is served from a new block all the same, past that block's end. */
  lemma LargeRequestOverrunsBlock(first: nat, b: nat)
    requires b != first
    ensures var (_, ptrs) := Run(first, [Request(5000, Some(b))]);
      ptrs == [Some(Ptr(b, 0))] && 0 + AlignUp(5000) > Capacity(first, BLOCK_HEADER_SIZE, b)
  {
    assert [Request(5000, Some(b))][..0] == [];
  }

  /** What a release frees: a block off the free_blocks list, or the pool struct itself. */
  datatype Release = BlockFreed(block: nat) | PoolFreed

  /**
   * The reference list destroy_memory_pool's loop is held to: one `free` per
   * listed block, in list order.
   */
  function BlockReleases(blocks: seq<nat>): seq<Release> {
    seq(|blocks|, i requires 0 <= i < |blocks| => BlockFreed(blocks[i]))
  }

  /**
   * Exactly the listed blocks are freed, each once when the list has no
   * repeats, and nothing else is freed as a block.
   */
  lemma BlockReleasesExact(blocks: seq<nat>, b: nat)
    ensures BlockFreed(b) in BlockReleases(blocks) <==> b in blocks
    ensures PoolFreed !in BlockReleases(blocks)
    ensures (forall i, j :: 0 <= i < j < |blocks| ==> blocks[i] != blocks[j]) ==>
      forall i, j :: 0 <= i < j < |blocks| ==> BlockReleases(blocks)[i] != BlockReleases(blocks)[j]
  {
    var r := BlockReleases(blocks);
    if BlockFreed(b) in r {
      var i :| 0 <= i < |r| && r[i] == BlockFreed(b);
      assert blocks[i] == b;
    }
    if b in blocks {
      var i :| 0 <= i < |blocks| && blocks[i] == b;
      assert r[i] == BlockFreed(b);
    }
  }

  /** The pool struct: its three fields, and the first block with the size it was malloc'ed with. */
  class Pool {
    var freeBlocks: seq<nat>
    var currentBlock: nat
    var currentPos: nat
    const firstBlock: nat
    const firstSize: int

    function State(): PoolState
      reads this
    {
      PoolState(freeBlocks, currentBlock, currentPos)
    }

    /** The first block is never pushed, and no block is pushed twice. */
    predicate Valid()
      reads this
    {
      && firstBlock !in freeBlocks
      && (forall i, j :: 0 <= i < j < |freeBlocks| ==> freeBlocks[i] != freeBlocks[j])
    }

    constructor (block: nat, size: int)
      ensures State() == Initial(block) && firstBlock == block && firstSize == size
      ensures Valid()
    {
      freeBlocks := [];
      currentBlock := block;
      currentPos := 0;
      firstBlock := block;
      firstSize := size;
    }

    /**
     * pool_alloc, with `block` what the malloc for a new block returns: a
     * block the pool does not hold, or None for NULL.
     */
    method Alloc(size: SizeT, block: Option<nat>) returns (p: Option<Ptr>)
      requires Valid()
      requires block.Some? ==> block.value != firstBlock && block.value !in freeBlocks
      modifies this
      ensures (State(), p) == AllocStep(old(State()), size, block)
      ensures Valid()
    {
      var rounded := AlignUp(size);
      if currentPos + rounded > POOL_BLOCK_SIZE {
        if block.None? {
          return None;
        }
        freeBlocks := [block.value] + freeBlocks;
        currentBlock := block.value;
        currentPos := 0;
      }
      p := Some(Ptr(currentBlock, currentPos));
      currentPos := currentPos + rounded;
    }
  }

  /**
   * create_memory_pool: NULL when the malloc of the pool struct fails, and
   * NULL with the struct freed again when the malloc of the first block (of
   * `size` bytes) fails; otherwise a fresh pool at the start of that block.
   */
  method CreateMemoryPool(size: int, poolAllocated: bool, block: Option<nat>) returns (pool: Pool?, freed: seq<Release>)
    ensures !poolAllocated ==> pool == null && freed == []
    ensures poolAllocated && block.None? ==> pool == null && freed == [PoolFreed]
    ensures poolAllocated && block.Some? ==>
      && pool != null && fresh(pool) && freed == []
      && pool.State() == Initial(block.value) && pool.firstBlock == block.value && pool.firstSize == size
      && pool.Valid()
  {
    if !poolAllocated {
      return null, [];
    }
    if block.None? {
      return null, [PoolFreed];
    }
    pool := new Pool(block.value, size);
    freed := [];
  }

  /**
   * destroy_memory_pool: nothing on a NULL pool; otherwise one free per block
   * on free_blocks, from the head, then the pool struct. On a pool that keeps
   * its invariant, every pushed block is freed exactly once, the pool struct
   * once, and the first block never.
   */
  method DestroyMemoryPool(pool: Pool?) returns (freed: seq<Release>)
    ensures pool == null ==> freed == []
    ensures pool != null ==> freed == BlockReleases(pool.freeBlocks) + [PoolFreed]
    ensures pool != null && pool.Valid() ==>
      && BlockFreed(pool.firstBlock) !in freed
      && (forall b :: BlockFreed(b) in freed <==> b in pool.freeBlocks)
      && (forall i, j :: 0 <= i < j < |freed| ==> freed[i] != freed[j])
      && freed[|freed| - 1] == PoolFreed
  {
    if pool == null {
      return [];
    }
    var blocks := pool.freeBlocks;
    freed := [];
    var i := 0;
    while i < |blocks|
      invariant 0 <= i <= |blocks|
      invariant freed == BlockReleases(blocks[..i])
    {
      freed := freed + [BlockFreed(blocks[i])];
      i := i + 1;
    }
    assert blocks[..i] == blocks;
    freed := freed + [PoolFreed];
    if pool.Valid() {
      DestroyLeaksFirstBlock(blocks, pool.firstBlock);
    }
  }

  /**
   * The first block is never on free_blocks, so destroy_memory_pool frees every
   * pushed block exactly once but never the first block.
   */
  lemma DestroyLeaksFirstBlock(freeBlocks: seq<nat>, first: nat)
    requires first !in freeBlocks
    requires forall i, j :: 0 <= i < j < |freeBlocks| ==> freeBlocks[i] != freeBlocks[j]
    ensures var freed := BlockReleases(freeBlocks) + [PoolFreed];
      && BlockFreed(first) !in freed
      && (forall b :: BlockFreed(b) in freed <==> b in freeBlocks)
      && (forall i, j :: 0 <= i < j < |freed| ==> freed[i] != freed[j])
  {
    var freed := BlockReleases(freeBlocks) + [PoolFreed];
    BlockReleasesExact(freeBlocks, first);
    forall b
      ensures BlockFreed(b) in freed <==> b in freeBlocks
    {
      BlockReleasesExact(freeBlocks, b);
    }
    BlockReleasesExact(freeBlocks, first);
  }
}
