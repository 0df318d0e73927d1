/** How much memory makes an allocation possible. */
module Growth {
  import opened Arith
  import opened Config
  import opened SizeClass
  import opened Blocks
  import opened FreeLists
  import opened Heap
  import opened Operations
  import opened Represent
  import opened Properties

  /** The size of a well-aligned pool that is sure to contain the allocation. */
  function PoolSizeToContainAllocation(p: Params, layout: Layout): Option<nat> {
    match SearchSize(p, layout)
    case None => None
    case Some(s) =>
      BlockSizeSearch(p, layout);
      match MapCeilAndUnmap(p, s)
      case None => None
      case Some(m) => if m + G(p) >= Top(p) then None else Some(m + G(p))
  }

  lemma PoolSizeOk(p: Params, layout: Layout)
    requires PoolSizeToContainAllocation(p, layout).Some?
    ensures var v := PoolSizeToContainAllocation(p, layout).value;
            && Aligned(p, v) && 2 * G(p) <= v < Top(p) && FitsMax(p, v)
            && SearchSize(p, layout).Some? && Granular(p, SearchSize(p, layout).value)
            && MapCeilAndUnmap(p, SearchSize(p, layout).value) == Some(v - G(p))
  {
    hide SearchSize, MapCeilAndUnmap, MapCeil, MapFloor, G;
    BlockSizeSearch(p, layout);
    var s := SearchSize(p, layout).value;
    UnmapIsLeast(p, s);
    var m := MapCeilAndUnmap(p, s).value;
    HasList(p, m);
    GranuleAligned(p);
    MultipleDiff(m, G(p), G(p));
    if MaxPoolSize(p).Some? {
      MaxAligned(p);
      MultipleDiff(m, MaxPoolSize(p).value, G(p));
    }
  }

  /** When there is no such size, the allocation fails in every heap. */
  lemma NoPoolSizeNoAllocation(p: Params, h: Heap, layout: Layout)
    requires Inv(p, h) && PoolSizeToContainAllocation(p, layout).None?
    ensures Allocate(p, h, layout).Fail?
  {
    hide Inv, SearchSize, MapCeilAndUnmap, Granular, Allocate, G, Top;
    AllocateSucceedsIff(p, h, layout);
    if Allocate(p, h, layout).Done? {
      var m := MapCeilAndUnmap(p, SearchSize(p, layout).value).value;
      var b :| IsFree(h.blocks, b) && m <= h.blocks[b].size;
      RoomBehind(p, h, b);
      assert false;
    }
  }

  /** Behind every free block there is a sentinel's worth of address space. */
  lemma RoomBehind(p: Params, h: Heap, b: int)
    requires Inv(p, h) && IsFree(h.blocks, b)
    ensures h.blocks[b].size + G(p) < Top(p)
  {
    hide ListsOk, Aligned, PayloadOk, H, Apart;
    assert BlockOk(p, h.pools, h.blocks, b);
    assert BlockOk(p, h.pools, h.blocks, b + h.blocks[b].size);
    assert PoolOk(p, h.pools, h.blocks, h.blocks[b].pool);
  }

  /** A free block of that size, less the sentinel, is enough. */
  lemma RoomSuffices(p: Params, h: Heap, layout: Layout, b: int)
    requires Inv(p, h) && PoolSizeToContainAllocation(p, layout).Some? && IsFree(h.blocks, b)
    requires PoolSizeToContainAllocation(p, layout).value - G(p) <= h.blocks[b].size
    ensures Allocate(p, h, layout).Done?
  {
    hide Inv, SearchSize, MapCeilAndUnmap, Granular, Allocate, G, PoolSizeToContainAllocation;
    PoolSizeOk(p, layout);
    AllocateSucceedsIff(p, h, layout);
  }

  /** Inserting a well-aligned region of that size makes the allocation succeed. */
  lemma InsertSuffices(p: Params, h: Heap, layout: Layout, start: int, size: int)
    requires Inv(p, h) && GoodRegion(p, h, start, size) && PoolSizeToContainAllocation(p, layout).Some?
    requires PoolSizeToContainAllocation(p, layout).value <= size
    ensures Inv(p, InsertAligned(p, h, start, size))
    ensures Allocate(p, InsertAligned(p, h, start, size), layout).Done?
  {
    hide Inv, Allocate, PoolSizeToContainAllocation, SearchSize, MapCeilAndUnmap, Granular, G, ChunkLists, ChunkPools,
      Aligned;
    PoolSizeOk(p, layout);
    InsertOk(p, h, start, size);
    var h' := InsertAligned(p, h, start, size);
    assert IsFree(h'.blocks, start) && h'.blocks[start].size == Chunk(p, size) - G(p) by {
      ChunkProps(p, size);
    }
    RoomSuffices(p, h', layout, start);
  }

  /** So does appending that many bytes to a pool, whether or not they coalesce with it. */
  lemma AppendSuffices(p: Params, h: Heap, layout: Layout, start: int, len: int)
    requires Inv(p, h) && EndsPool(p, h, start) && 0 <= len < Top(p)
    requires start + len <= Top(p) && Clear(h.pools, start, start + len)
    requires PoolSizeToContainAllocation(p, layout).Some?
    requires PoolSizeToContainAllocation(p, layout).value <= len
    ensures start - G(p) in h.blocks && Inv(p, Append(p, h, start, len))
    ensures Allocate(p, Append(p, h, start, len), layout).Done?
  {
    hide Inv, Allocate, PoolSizeToContainAllocation, SearchSize, MapCeilAndUnmap, Granular, G, H, Aligned, RoundDown,
      InsertAligned, EndsPool, Extend, Clear, Top, MaxPoolSize, GoodRegion;
    PoolSizeOk(p, layout);
    AppendPlan(p, h, start, len);
    var n := RoundDown(len, G(p));
    var v := PoolSizeToContainAllocation(p, layout).value;
    assert v <= n by {
      AlignedBelow(p, len, v);
    }
    if MaxPoolSize(p).Some? {
      InsertSuffices(p, h, layout, start, n);
    } else {
      ExtendOk(p, h, start, n);
      var h' := Extend(p, h, start, n);
      ExtendedBlock(p, h, start, n);
      RoomSuffices(p, h', layout, ExtendFrom(p, h, start));
    }
  }

  lemma AlignedBelow(p: Params, x: int, v: int)
    requires Aligned(p, v) && v <= x
    ensures v <= RoundDown(x, G(p))
  {
    RoundDownGreatest(x, v, G(p));
  }

  /** The free block of an extended pool holds all of the new bytes. */
  lemma ExtendedBlock(p: Params, h: Heap, start: int, n: int)
    requires Inv(p, h) && EndsPool(p, h, start) && GoodRegion(p, h, start, n) && 0 < n
    ensures start - G(p) in h.blocks
    ensures var lo, h' := ExtendFrom(p, h, start), Extend(p, h, start, n);
            IsFree(h'.blocks, lo) && n <= h'.blocks[lo].size
  {
    hide Inv, G, H, GoodRegion, Link, Unlink, Aligned, Top;
    ExtendFromIs(p, h, start, n);
  }

  /** So does inserting a region of any alignment, if it has a granule more. */
  lemma InsertPtrSuffices(p: Params, h: Heap, layout: Layout, start: int, len: int)
    requires Inv(p, h) && 0 < start && start + len <= Top(p) && Clear(h.pools, start, start + len)
    requires PoolSizeToContainAllocation(p, layout).Some?
    requires PoolSizeToContainAllocation(p, layout).value + G(p) <= len
    ensures Inv(p, InsertPtr(p, h, start, len))
    ensures Allocate(p, InsertPtr(p, h, start, len), layout).Done?
  {
    hide Inv, Allocate, PoolSizeToContainAllocation, SearchSize, MapCeilAndUnmap, Granular, G, H, Aligned, RoundDown,
      RoundUp, InsertAligned, Clear, Top, InsertPtr, ChunkedLength, InsertedLength;
    PoolSizeOk(p, layout);
    InsertCases(p, h, start, len);
    RoundUpAligned(p, start);
    var pad := RoundUp(start, G(p)) - start;
    var n := RoundDown(len - pad, G(p));
    AlignedBelow(p, len - pad, PoolSizeToContainAllocation(p, layout).value);
    ClearPart(h.pools, start, start + len, start + pad, start + pad + n);
    InsertSuffices(p, h, layout, start + pad, n);
  }

  /** The free blocks of new pools leave room for a sentinel. */
  lemma {:induction false} ChunkSizes(p: Params, start: int, size: int, b: int)
    requires b in ChunkBlocks(p, start, size) && ChunkBlocks(p, start, size)[b].kind.Free?
    ensures ChunkBlocks(p, start, size)[b].size + G(p) <= size
    decreases size
  {
    hide G;
    var c := Chunk(p, size);
    if b != start && b != start + c - G(p) {
      ChunkSizes(p, start + c, size - c, b);
    }
  }

  /**
   The computed pool size is the least one: where an allocation fails, inserting a well-aligned region makes it
   succeed exactly when the region has that size.
   */
  lemma PoolSizeIsLeast(p: Params, h: Heap, layout: Layout, start: int, size: int)
    requires Inv(p, h) && GoodRegion(p, h, start, size) && PoolSizeToContainAllocation(p, layout).Some?
    requires Allocate(p, h, layout).Fail?
    ensures Inv(p, InsertAligned(p, h, start, size))
    ensures Allocate(p, InsertAligned(p, h, start, size), layout).Done? <==>
            PoolSizeToContainAllocation(p, layout).value <= size
  {
    hide Inv, Allocate, PoolSizeToContainAllocation, SearchSize, MapCeilAndUnmap, Granular, G, ChunkLists, ChunkPools,
      ChunkBlocks, GoodRegion;
    InsertOk(p, h, start, size);
    PoolSizeOk(p, layout);
    AllocateSucceedsIff(p, h, layout);
    var h', v := InsertAligned(p, h, start, size), PoolSizeToContainAllocation(p, layout).value;
    if v <= size {
      InsertSuffices(p, h, layout, start, size);
    } else {
      AllocateSucceedsIff(p, h', layout);
      forall b | IsFree(h'.blocks, b)
        ensures h'.blocks[b].size < v - G(p)
      {
        if b in ChunkBlocks(p, start, size) {
          ChunkSizes(p, start, size, b);
        } else {
          assert IsFree(h.blocks, b);
        }
      }
    }
  }

  /** A well-aligned region needs no extra granule, even if it is not whole granules. */
  lemma AlignedSuffices(p: Params, h: Heap, layout: Layout, start: int, len: int)
    requires Inv(p, h) && 0 < start && Aligned(p, start) && start + len <= Top(p) && Clear(h.pools, start, start + len)
    requires PoolSizeToContainAllocation(p, layout).Some?
    requires PoolSizeToContainAllocation(p, layout).value <= len
    ensures Inv(p, InsertPtr(p, h, start, len))
    ensures Allocate(p, InsertPtr(p, h, start, len), layout).Done?
  {
    hide Inv, Allocate, PoolSizeToContainAllocation, SearchSize, MapCeilAndUnmap, Granular, G, H, Aligned, RoundDown,
      RoundUp, InsertAligned, Clear, Top, InsertPtr, ChunkedLength, InsertedLength;
    PoolSizeOk(p, layout);
    InsertCases(p, h, start, len);
    StartKept(p, start);
    var n := RoundDown(len, G(p));
    AlignedBelow(p, len, PoolSizeToContainAllocation(p, layout).value);
    ClearPart(h.pools, start, start + len, start, start + n);
    InsertSuffices(p, h, layout, start, n);
  }

  lemma StartKept(p: Params, start: int)
    requires Aligned(p, start)
    ensures RoundUp(start, G(p)) == start
  {
    RoundUpFix(start, G(p));
  }
}
