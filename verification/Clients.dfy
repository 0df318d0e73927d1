/** What a client of the allocator object can rely on across several calls. */
module Clients {
  import opened Arith
  import opened Bits
  import opened Config
  import opened SizeClass
  import opened Blocks
  import opened FreeLists
  import opened Heap
  import opened Operations
  import opened Memory
  import opened Represent
  import opened Properties
  import opened TlsfAllocator
  import opened Runs
  import opened Flex

  // ----- the bitmaps carry no information of their own -----

  /** Two numbers with the same binary digits are equal. */
  lemma {:induction false} SameBits(x: nat, y: nat)
    requires forall i: nat :: GetBit(x, i) <==> GetBit(y, i)
    ensures x == y
    decreases x + y
  {
    assert GetBit(x, 0) <==> GetBit(y, 0);
    if x + y > 0 {
      forall i: nat
        ensures GetBit(x / 2, i) <==> GetBit(y / 2, i)
      {
        assert GetBit(x, i + 1) <==> GetBit(y, i + 1);
      }
      SameBits(x / 2, y / 2);
    }
  }

  /** The lists determine both levels of the bitmaps. */
  lemma BitmapsDetermined(p: Params, lists: Lists, fl: nat, sl: seq<nat>, fl': nat, sl': seq<nat>)
    requires BitmapsOk(p, lists, fl, sl) && BitmapsOk(p, lists, fl', sl')
    ensures fl == fl' && sl == sl'
  {
    hide GetBit, Pow2, ValidClass, NonEmpty;
    forall k: nat | k < p.fllen
      ensures sl[k] == sl'[k]
    {
      assert SlOk(p, lists, sl, k) && SlOk(p, lists, sl', k);
      SameBits(sl[k], sl'[k]);
    }
    SameBits(fl, fl');
  }

  /**
   Allocating and deallocating at once restores all that the allocator keeps besides the memory: blocks,
   lists in their order, list heads and bitmaps.
   */
  method AllocateAndDeallocate(t: Tlsf, layout: Layout) returns (ptr: int)
    requires t.Valid() && LayoutOk(t.p, layout)
    modifies t, t.slBitmap, t.firstFree
    ensures t.Valid() && t.h == old(t.h)
    ensures t.flBitmap == old(t.flBitmap) && t.slBitmap[..] == old(t.slBitmap[..])
    ensures forall c :: ValidClass(t.p, c) ==> t.firstFree[c.fl, c.sl] == old(t.firstFree[c.fl, c.sl])
  {
    hide Inv, HeadersOk, BitmapsOk, LinksOk, Operations.Allocate, Operations.Deallocate, PayloadKept, OutsideKept,
      ValidClass;
    ghost var h0, fl0, sl0 := t.h, t.flBitmap, t.slBitmap[..];
    ptr := t.Allocate(layout);
    if ptr != 0 {
      ghost var b := AllocatedAt(t.p, h0, layout);
      AllocateDeallocate(t.p, h0, layout, b);
      t.Deallocate(ptr, layout.alignLog, b);
    }
    BitmapsDetermined(t.p, h0.lists, fl0, sl0, t.flBitmap, t.slBitmap[..]);
    ListsExist(t.p, h0.lists, fl0, sl0);
  }

  lemma ListsExist(p: Params, lists: Lists, fl: nat, sl: seq<nat>)
    requires BitmapsOk(p, lists, fl, sl)
    ensures forall c :: ValidClass(p, c) ==> c in lists
  {
  }

  // ----- iterating over the blocks -----

  /** `[s, e)` consists of whole pools. */
  ghost predicate PoolsFill(pools: Pools, s: int, e: int)
    decreases e - s
  {
    s == e || (s in pools && s < pools[s] <= e && PoolsFill(pools, pools[s], e))
  }

  /** The next block, be it in the same pool or in the one behind it. */
  lemma NextBlock(p: Params, h: Heap, b: int, end: int)
    requires Inv(p, h) && b in h.blocks && h.blocks[b].pool in h.pools && h.pools[h.blocks[b].pool] <= end
    requires PoolsFill(h.pools, h.pools[h.blocks[b].pool], end)
    ensures var n := b + h.blocks[b].size;
            && b < n <= end
            && (n < end ==>
                  && n in h.blocks && h.blocks[n].pool in h.pools && h.pools[h.blocks[n].pool] <= end
                  && PoolsFill(h.pools, h.pools[h.blocks[n].pool], end))
            && (forall x :: x in h.blocks && b < x ==> n <= x)
  {
    hide ListsOk, BlockOk, Aligned, G, H;
    WalkStep(p, h, b);
    var n := b + h.blocks[b].size;
    if h.blocks[b].kind.Sentinel? && n < end {
      assert PoolOk(p, h.pools, h.blocks, n);
    }
    forall x | x in h.blocks && b < x
      ensures n <= x
    {
      assert Apart(h.blocks, b, x);
    }
  }

  /** The first block of a range of whole pools. */
  lemma FirstBlock(p: Params, h: Heap, s: int, e: int)
    requires Inv(p, h) && PoolsFill(h.pools, s, e)
    ensures s <= e
    ensures s < e ==> s in h.blocks && h.blocks[s].pool == s && s in h.pools && h.pools[s] <= e && s + 2 * G(p) <= e
    ensures s < e ==> PoolsFill(h.pools, h.pools[s], e)
  {
    hide ListsOk, BlockOk, Apart, PoolsApart, Aligned, H;
    assert PoolOk(p, h.pools, h.blocks, s);
  }

  /** All blocks but the sentinels of the pools created in `[start, start + len)`, in the order of their addresses. */
  method IterBlocks(t: Tlsf, start: int, len: nat) returns (found: seq<int>)
    requires t.Valid() && 0 < start < Top(t.p) && start + len <= Top(t.p)
    requires PoolsFill(t.h.pools, RoundUp(start, G(t.p)), start + len)
    ensures forall b :: b in found <==> b in t.h.blocks && start <= b < start + len && !t.h.blocks[b].kind.Sentinel?
    ensures forall i, j :: 0 <= i < j < |found| ==> found[i] < found[j]
  {
    hide Tlsf.ListsRep, Inv, HeadersOk, Pow2, G, H, RoundUp, RoundDown, MaskDown, Top, Load, SizeBits, UsedBit,
      SentinelBit, Aligned, PoolsFill;
    ghost var h, end := t.h, start + len;
    InsertPlan(t.p, start, len);
    FirstBlock(t.p, h, RoundUp(start, G(t.p)), end);
    NoBlockInPadding(t.p, h, start, RoundUp(start, G(t.p)));
    // round up the starting address as insertion does
    var cursor := MaskDown(t.p, (start + (G(t.p) - 1)) % Top(t.p), t.p.gl);
    var pad := (cursor - start) % Top(t.p);
    var left := if len < pad then 0 else len - pad;
    ghost var first := RoundUp(start, G(t.p));
    found := [];
    while left != 0
      invariant 0 <= left && (left != 0 ==> cursor + left == end && first <= cursor)
      invariant left != 0 ==>
                  && cursor in h.blocks && h.blocks[cursor].pool in h.pools && h.pools[h.blocks[cursor].pool] <= end
                  && PoolsFill(h.pools, h.pools[h.blocks[cursor].pool], end)
      invariant forall b :: b in found <==> b in h.blocks && first <= b < end - left && !h.blocks[b].kind.Sentinel?
      invariant forall i, j :: 0 <= i < j < |found| ==> found[i] < found[j]
      decreases left
    {
      HeaderOf(t, cursor);
      NextBlock(t.p, h, cursor, end);
      var word := Load(t.mem, cursor).w0;
      var size := SizeBits(t.p, word);
      if !SentinelBit(word) {
        assert forall i :: 0 <= i < |found| ==> found[i] in found;
        found := found + [cursor];
      }
      left := left - size;
      cursor := cursor + size;
    }
  }

  lemma HeaderOf(t: Tlsf, b: int)
    requires t.Valid() && b in t.h.blocks
    ensures var k, x := t.h.blocks[b], Load(t.mem, b).w0;
            0 <= x < Top(t.p) && SizeBits(t.p, x) == k.size && (SentinelBit(x) <==> k.kind.Sentinel?)
  {
    hide Tlsf.ListsRep, HeadersOk, TilingOk, ListsOk, SizeBits, SentinelBit, UsedBit, Top, Load;
    ReadHeader(t.p, t.h.pools, t.h.blocks, t.mem, b);
  }

  lemma NoBlockInPadding(p: Params, h: Heap, start: int, s: int)
    requires Inv(p, h) && s == RoundUp(start, G(p))
    ensures forall b :: b in h.blocks && start <= b ==> s <= b
  {
    hide Inv, RoundUp, G;
    forall b | b in h.blocks && start <= b
      ensures s <= b
    {
      AlignedBlock(p, h, b);
      RoundUpLeast(start, b, G(p));
    }
  }

  // ----- which memory consists of whole pools -----

  lemma {:induction false} FillMono(pools: Pools, pools': Pools, s: int, e: int)
    requires PoolsFill(pools, s, e) && forall t :: t in pools ==> t in pools' && pools'[t] == pools[t]
    ensures PoolsFill(pools', s, e)
    decreases e - s
  {
    if s != e {
      FillMono(pools, pools', pools[s], e);
    }
  }

  lemma {:induction false} FillJoin(pools: Pools, s: int, m: int, e: int)
    requires PoolsFill(pools, s, m) && PoolsFill(pools, m, e) && m <= e
    ensures PoolsFill(pools, s, e)
    decreases m - s
  {
    if s != m {
      FillJoin(pools, pools[s], m, e);
    }
  }

  /** The chunks are back to back. */
  lemma {:induction false} ChunksFill(p: Params, start: int, size: int)
    ensures PoolsFill(ChunkPools(p, start, size), start, start + ChunkedLength(p, size))
    decreases size
  {
    hide G;
    GPositive(p);
    var c := Chunk(p, size);
    if !(size < 2 * G(p) || c < 2 * G(p)) {
      ChunksFill(p, start + c, size - c);
      ChunkedNonNegative(p, size - c);
      var rest := ChunkPools(p, start + c, size - c);
      forall t | t in rest
        ensures t != start
      {
        ChunkPoolsWithin(p, start + c, size - c, t);
      }
      FillMono(rest, ChunkPools(p, start, size), start + c, start + ChunkedLength(p, size));
    }
  }

  /** The bytes that an insertion counts, but for the padding in front, are whole pools. */
  lemma InsertFills(p: Params, h: Heap, start: int, len: int)
    requires InsertedLength(p, start, len) != 0
    ensures PoolsFill(InsertPtr(p, h, start, len).pools, RoundUp(start, G(p)), start + InsertedLength(p, start, len))
  {
    hide RoundUp, RoundDown, G, ChunkPools, ChunkBlocks, ChunkLists, ChunkedLength, PoolsFill;
    var pad := RoundUp(start, G(p)) - start;
    var n := RoundDown(len - pad, G(p));
    ChunksFill(p, start + pad, n);
    FillMono(ChunkPools(p, start + pad, n), InsertPtr(p, h, start, len).pools, start + pad,
             start + InsertedLength(p, start, len));
  }

  /** Appending extends whole pools to whole pools. */
  lemma AppendFills(p: Params, h: Heap, s: int, start: int, len: int)
    requires Inv(p, h) && EndsPool(p, h, start) && 0 <= len < Top(p)
    requires start + len <= Top(p) && Clear(h.pools, start, start + len)
    requires PoolsFill(h.pools, s, start) && s < start
    ensures start - G(p) in h.blocks
    ensures PoolsFill(Append(p, h, start, len).pools, s, start + AppendedLength(p, len))
  {
    hide Inv, EndsPool, Clear, RoundDown, G, Top, Extend, InsertAligned, MaxPoolSize, PoolsFill, ChunkedLength;
    AppendPlan(p, h, start, len);
    var n := RoundDown(len, G(p));
    if MaxPoolSize(p).Some? {
      InsertAppends(p, h, s, start, n);
    } else if n != 0 {
      LastFilled(p, h, s, start, n);
    }
  }

  lemma InsertAppends(p: Params, h: Heap, s: int, start: int, n: int)
    requires Inv(p, h) && GoodRegion(p, h, start, n) && PoolsFill(h.pools, s, start)
    ensures PoolsFill(InsertAligned(p, h, start, n).pools, s, start + ChunkedLength(p, n))
  {
    hide Inv, GoodRegion, ChunkPools, ChunkBlocks, ChunkLists, ChunkedLength, PoolsFill;
    var pools' := InsertAligned(p, h, start, n).pools;
    ChunksFill(p, start, n);
    FillMono(ChunkPools(p, start, n), pools', start, start + ChunkedLength(p, n));
    InsertKeepsPools(p, h, start, n);
    FillMono(h.pools, pools', s, start);
    ChunkedNonNegative(p, n);
    FillJoin(pools', s, start, start + ChunkedLength(p, n));
  }

  /** The last of the pools is the one that is extended. */
  lemma {:induction false} LastFilled(p: Params, h: Heap, s: int, start: int, n: int)
    requires Inv(p, h) && EndsPool(p, h, start) && GoodRegion(p, h, start, n) && 0 < n
    requires PoolsFill(h.pools, s, start) && s < start
    ensures start - G(p) in h.blocks
    ensures PoolsFill(Extend(p, h, start, n).pools, s, start + n)
    decreases start - s
  {
    hide Inv, GoodRegion, G, Link, Unlink, Aligned;
    SentinelKind(p, h, start);
    ExtendedPool(p, h, start, s);
    if h.pools[s] != start {
      LastFilled(p, h, h.pools[s], start, n);
    }
  }

  lemma ExtendedPool(p: Params, h: Heap, start: int, s: int)
    requires Inv(p, h) && EndsPool(p, h, start) && s in h.pools
    ensures start - G(p) in h.blocks
    ensures var q := h.blocks[start - G(p)].pool;
            q in h.pools && h.pools[q] == start && (h.pools[s] == start <==> s == q)
  {
    hide ListsOk, Apart, Aligned, H, PayloadOk, BlockOk;
    EndIsPool(p, h, start);
    assert PoolOk(p, h.pools, h.blocks, s);
    var q := h.blocks[start - G(p)].pool;
    assert PoolOk(p, h.pools, h.blocks, q);
    assert PoolsApart(h.pools, s, q) && PoolsApart(h.pools, q, s);
  }

  /**
   With unbounded pools, appending makes one pool of the old one and the new bytes and takes exactly the
   rounded length; with bounded pools, it leaves all blocks and pools there are alone.
   */
  lemma AppendOutcome(p: Params, h: Heap, start: int, len: int)
    requires Inv(p, h) && EndsPool(p, h, start) && 0 <= len < Top(p)
    requires start + len <= Top(p) && Clear(h.pools, start, start + len)
    ensures start - G(p) in h.blocks && Inv(p, Append(p, h, start, len))
    ensures var h', q := Append(p, h, start, len), h.blocks[start - G(p)].pool;
            && q in h.pools && h.pools[q] == start
            && (MaxPoolSize(p).None? ==>
                  && h'.pools == h.pools[q := start + AppendedLength(p, len)]
                  && AppendedLength(p, len) == RoundDown(len, G(p)))
            && (MaxPoolSize(p).Some? ==>
                  && (forall t :: t in h.pools ==> t in h'.pools && h'.pools[t] == h.pools[t])
                  && (forall b :: b in h.blocks ==> b in h'.blocks && h'.blocks[b] == h.blocks[b]))
  {
    hide Inv, EndsPool, Clear, RoundDown, G, Top, InsertAligned, MaxPoolSize, ChunkedLength, GoodRegion;
    AppendPlan(p, h, start, len);
    EndIsPool(p, h, start);
    RegionAligned(p, h, start, RoundDown(len, G(p)));
    AppendOk(p, h, start, len);
    if MaxPoolSize(p).Some? {
      InsertKeepsPools(p, h, start, RoundDown(len, G(p)));
      InsertKeepsBlocks(p, h, start, RoundDown(len, G(p)));
    } else {
      assert h.pools[h.blocks[start - G(p)].pool := start] == h.pools;
    }
  }

  lemma EndIsPool(p: Params, h: Heap, start: int)
    requires Inv(p, h) && EndsPool(p, h, start)
    ensures start - G(p) in h.blocks
    ensures h.blocks[start - G(p)].pool in h.pools && h.pools[h.blocks[start - G(p)].pool] == start
  {
    hide ListsOk, Apart, PoolOk, PoolsApart, Aligned, H, PayloadOk;
    assert BlockOk(p, h.pools, h.blocks, start - G(p));
  }

  // ----- the life of a manager -----

  lemma LiveBlock(bs: Tiling, live: map<int, Kind>, b: int, ptr: int, layout: Layout)
    requires Live(bs) == live[b := Used(ptr, layout)]
    ensures IsUsed(bs, b) && bs[b].kind == Used(ptr, layout)
  {
    hide Live;
    LiveIsUsed(bs, b);
  }

  /**
   A manager of a source that supports deallocation, from its creation to its end: it allocates, reallocates and
   deallocates as it pleases. In the end every region that the source handed out has been given back, each once.
   */
  method WholeLife(params: Params, memory: Memory, alignLog: nat, grow: bool, contiguous: bool,
                   layouts: seq<Layout>, sizes: seq<nat>) returns (source: Source)
    requires forall i :: 0 <= i < |layouts| ==> LayoutOk(params, layouts[i])
    requires |sizes| == |layouts| && forall i :: 0 <= i < |sizes| ==> sizes[i] < Top(params)
    ensures source.live == map[] && |source.freed| == source.granted
  {
    hide Tlsf.Valid, FlexTlsf.Valid, Top, Live, Inv, Operations.Allocate, Operations.Reallocate, Operations.Deallocate,
      Asked, UsedKept, PayloadKept, Copied, Reversed, Served, Replaced, LastGrown, Source.Valid;
    source := new Source(params, alignLog, true, grow, contiguous);
    var manager := new FlexTlsf(params, memory, source);
    for i := 0 to |layouts|
      invariant fresh(source) && fresh(manager) && fresh(manager.tlsf)
      invariant fresh(manager.tlsf.slBitmap) && fresh(manager.tlsf.firstFree)
      invariant manager.Valid() && manager.source == source && manager.tlsf.p == params
      invariant source.supportsDealloc && source.freed == []
    {
      var layout := layouts[i];
      var ptr, b := manager.Allocate(layout);
      var resize: bool, free: bool := *, *;
      ghost var live := Live(manager.tlsf.h.blocks);
      if ptr != 0 && resize {
        LiveBlock(manager.tlsf.h.blocks, live, b, ptr, layout);
        var wider := Layout(sizes[i], layout.alignLog);
        var q, c := manager.Reallocate(ptr, wider, b);
        if q != 0 {
          LiveBlock(manager.tlsf.h.blocks, live - {b}, c, q, wider);
          ptr, layout, b := q, wider, c;
        }
      }
      if ptr != 0 && free {
        LiveBlock(manager.tlsf.h.blocks, Live(manager.tlsf.h.blocks), b, ptr, layout);
        manager.Deallocate(ptr, layout.alignLog, b);
      }
    }
    manager.Drop();
  }
}
