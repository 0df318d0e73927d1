/** The live allocations and the pools determine all blocks: the free blocks are exactly the gaps between them. */
module Determined {
  import opened Config
  import opened Blocks
  import opened FreeLists
  import opened Heap
  import opened Operations
  import opened Properties
  import opened Runs

  /** Two heaps with the same pools and the same live allocations. */
  ghost predicate Alike(p: Params, h: Heap, h': Heap) {
    Inv(p, h) && Inv(p, h') && h'.pools == h.pools && Live(h'.blocks) == Live(h.blocks)
  }

  /** The gap behind a free block does not end earlier in one heap than in the other. */
  lemma NotShorter(p: Params, h: Heap, h': Heap, a: int)
    requires Alike(p, h, h') && IsFree(h.blocks, a) && IsFree(h'.blocks, a) && h'.blocks[a].pool == h.blocks[a].pool
    ensures h'.blocks[a].size <= h.blocks[a].size
  {
    hide ListsOk, Aligned, PayloadOk, G, H, PoolOk, PoolsApart, Live;
    var n, n' := a + h.blocks[a].size, a + h'.blocks[a].size;
    assert BlockOk(p, h.pools, h.blocks, a) && BlockOk(p, h.pools, h.blocks, n);
    assert BlockOk(p, h'.pools, h'.blocks, a) && BlockOk(p, h'.pools, h'.blocks, n');
    LiveIsUsed(h.blocks, n);
    LiveIsUsed(h'.blocks, n);
    assert Apart(h'.blocks, a, n);
  }

  /** A sentinel is one in both heaps, because only it reaches the end of the pool. */
  lemma SameSentinel(p: Params, h: Heap, h': Heap, a: int)
    requires Alike(p, h, h') && a in h.blocks && a in h'.blocks && h'.blocks[a].pool == h.blocks[a].pool
    requires h.blocks[a].kind.Sentinel?
    ensures h'.blocks[a].kind == h.blocks[a].kind && h'.blocks[a].size == h.blocks[a].size
  {
    hide ListsOk, Aligned, PayloadOk, G, H, PoolOk, PoolsApart, Live, Apart;
    assert BlockOk(p, h.pools, h.blocks, a);
    assert BlockOk(p, h'.pools, h'.blocks, a);
  }

  /** A block that starts at the same place in both heaps is the same. */
  lemma SameBlock(p: Params, h: Heap, h': Heap, a: int)
    requires Alike(p, h, h') && a in h.blocks && a in h'.blocks && h'.blocks[a].pool == h.blocks[a].pool
    ensures h'.blocks[a].kind == h.blocks[a].kind && h'.blocks[a].size == h.blocks[a].size
  {
    hide Inv, Live, G;
    LiveIsUsed(h.blocks, a);
    LiveIsUsed(h'.blocks, a);
    match h.blocks[a].kind
    case Used(_, _) =>
      TightFit(p, h, a);
      TightFit(p, h', a);
    case Sentinel =>
      SameSentinel(p, h, h', a);
    case Free =>
      if h'.blocks[a].kind.Sentinel? {
        SameSentinel(p, h', h, a);
      }
      NotShorter(p, h, h', a);
      NotShorter(p, h', h, a);
  }

  /** From a common block on, all blocks of the pool are the same. */
  lemma {:induction false} SameFrom(p: Params, h: Heap, h': Heap, a: int, b: int)
    requires Alike(p, h, h') && a in h.blocks && a in h'.blocks && h'.blocks[a].pool == h.blocks[a].pool
    requires b in h.blocks && h.blocks[b].pool == h.blocks[a].pool && a <= b
    ensures b in h'.blocks && h'.blocks[b].pool == h.blocks[b].pool
    ensures h'.blocks[b].kind == h.blocks[b].kind && h'.blocks[b].size == h.blocks[b].size
    decreases b - a
  {
    hide Inv, Live;
    SameBlock(p, h, h', a);
    if a < b {
      BehindBlock(p, h, a, b);
      WalkStep(p, h, a);
      WalkStep(p, h', a);
      SameFrom(p, h, h', a + h.blocks[a].size, b);
    }
  }

  lemma SameEntry(p: Params, h: Heap, h': Heap, b: int)
    requires Alike(p, h, h') && b in h.blocks
    ensures b in h'.blocks && h'.blocks[b].pool == h.blocks[b].pool
    ensures h'.blocks[b].kind == h.blocks[b].kind && h'.blocks[b].size == h.blocks[b].size
  {
    hide Inv, Live;
    WalkStep(p, h, b);
    var s := h.blocks[b].pool;
    PoolTiled(p, h, s);
    PoolTiled(p, h', s);
    SameFrom(p, h, h', s, b);
  }

  lemma SamePrev(p: Params, h: Heap, h': Heap, b: int)
    requires Alike(p, h, h') && b in h.blocks && b in h'.blocks && h'.blocks[b].pool == h.blocks[b].pool
    ensures h'.blocks[b].prev == h.blocks[b].prev
  {
    hide ListsOk, Aligned, PayloadOk, G, H, PoolOk, PoolsApart, Live, Apart;
    assert BlockOk(p, h.pools, h.blocks, b) && BlockOk(p, h'.pools, h'.blocks, b);
    var q := h.blocks[b].prev;
    if q != 0 {
      assert BlockOk(p, h.pools, h.blocks, q);
      SameEntry(p, h, h', q);
      assert BlockOk(p, h'.pools, h'.blocks, q);
    }
  }

  /**
   Whatever happened before, the pools and the live allocations determine every block. Together with what an
   operation does to the live allocations, this says all that it does to the blocks.
   */
  lemma BlocksDetermined(p: Params, h: Heap, h': Heap)
    requires Alike(p, h, h')
    ensures h'.blocks == h.blocks
  {
    hide Inv, Live;
    forall b
      ensures b in h.blocks ==> b in h'.blocks && h'.blocks[b] == h.blocks[b]
      ensures b in h'.blocks ==> b in h.blocks
    {
      if b in h.blocks {
        SameEntry(p, h, h', b);
        SamePrev(p, h, h', b);
      }
      if b in h'.blocks {
        SameEntry(p, h', h, b);
      }
    }
  }
}
