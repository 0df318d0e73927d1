/** What the operations promise together: round trips, draining, placement, fragmentation and growth. */
module Properties {
  import opened Arith
  import opened Config
  import opened SizeClass
  import opened Blocks
  import opened FreeLists
  import opened Heap
  import opened Operations
  import opened Represent

  // ----- allocate, then deallocate -----

  /** Recutting a free block and merging it again restores the blocks. */
  lemma RetileBack(p: Params, h: Heap, b: int, mid: int, kind: Kind)
    requires Inv(p, h) && IsFree(h.blocks, b) && b < mid <= b + h.blocks[b].size && !kind.Free?
    requires b + h.blocks[b].size in h.blocks
    ensures var hi := b + h.blocks[b].size;
            var bs := Retile(h.blocks, b, mid, hi, kind);
            b in bs && hi in bs && Retile(bs, b, hi, hi, Free) == h.blocks
  {
    hide ListsOk, Aligned, G, H, PayloadOk, PoolOk, PoolsApart;
    var hi := b + h.blocks[b].size;
    var bs := Retile(h.blocks, b, mid, hi, kind);
    assert BlockOk(p, h.pools, h.blocks, b);
    var back := Retile(bs, b, hi, hi, Free);
    forall x
      ensures x in back <==> x in h.blocks
      ensures x in back ==> back[x] == h.blocks[x]
    {
      assert Apart(h.blocks, b, x);
    }
  }

  /** Taking the first block of a list out and putting it back restores the list. */
  lemma RelinkFirst(p: Params, lists: Lists, free: map<int, int>, b: int)
    requires ListsOk(p, lists, free) && b in free
    requires ListOf(p, free[b]).value in lists ==>
               lists[ListOf(p, free[b]).value] != [] && lists[ListOf(p, free[b]).value][0] == b
    ensures Link(p, Unlink(p, lists, b, free[b]), b, free[b]) == lists
  {
    hide ListOf;
    UnlinkOk(p, lists, free, b);
    var c := ListOf(p, free[b]).value;
    assert ListOk(p, lists, free, c);
    WithoutAt(lists[c], 0);
    assert lists[c][..0] + lists[c][1..] == lists[c][1..];
    assert lists[c] == [b] + lists[c][1..];
    assert lists[c := lists[c][1..]][c := lists[c]] == lists;
  }

  /**
   Deallocating right after a successful allocation restores the same blocks, the same pools and the same
   lists in the same order.
   */
  lemma AllocateDeallocate(p: Params, h: Heap, layout: Layout, b: int)
    requires Inv(p, h) && Allocate(p, h, layout).Done?
    requires IsUsed(Allocate(p, h, layout).heap.blocks, b)
    requires Allocate(p, h, layout).heap.blocks[b].kind.ptr == Allocate(p, h, layout).ptr && !IsUsed(h.blocks, b)
    ensures Inv(p, Allocate(p, h, layout).heap)
    ensures Deallocate(p, Allocate(p, h, layout).heap, b) == h
  {
    hide Inv, SearchSize, MapCeil, FirstFrom, AllocateAt, Granular, Deallocate;
    AllocateOk(p, h, layout);
    AllocateIs(p, h, layout);
    var c := FirstFrom(p, h.lists, MapCeil(p, SearchSize(p, layout).value).value).value;
    var x := h.lists[c][0];
    AllocateFrees(p, h, c, x, layout, b);
  }

  lemma AllocateFrees(p: Params, h: Heap, c: Class, x: int, layout: Layout, b: int)
    requires Inv(p, h) && c in h.lists && h.lists[c] != [] && x == h.lists[c][0] && IsFree(h.blocks, x)
    requires SearchSize(p, layout).Some? && SearchSize(p, layout).value <= h.blocks[x].size
    requires AllocateAt(p, h, x, layout).Done?
    requires var r := AllocateAt(p, h, x, layout);
             IsUsed(r.heap.blocks, b) && r.heap.blocks[b].kind.ptr == r.ptr && !IsUsed(h.blocks, b)
    ensures Inv(p, AllocateAt(p, h, x, layout).heap)
    ensures Deallocate(p, AllocateAt(p, h, x, layout).heap, b) == h
  {
    hide Inv, SearchSize, CanReshape, PayloadStart, RoundUp, Link, Unlink, G, H, ListOf, Retile, FreeEnd;
    AllocateAtOk(p, h, x, layout);
    var hi := x + h.blocks[x].size;
    var ptr := PayloadStart(p, x, layout.alignLog);
    var mid := x + RoundUp(ptr - x + layout.size, G(p));
    var h1 := AllocateAt(p, h, x, layout).heap;
    UnlinkAllIs(p, h.lists, h.blocks, x, x);
    ReshapePlan(p, h, x, mid, hi, Used(ptr, layout), [x]);
    FreeAround(p, h, x);
    CarvedView(p, h, x, mid, Used(ptr, layout), h1, b);
    RetileBack(p, h, x, mid, Used(ptr, layout));
    ListsRestored(p, h, c, x, mid, hi, h1);
  }

  /** The used block carved from a free block has the free rest behind it and no free block before it. */
  lemma CarvedView(p: Params, h: Heap, x: int, mid: int, kind: Kind, h1: Heap, b: int)
    requires Inv(p, h) && Inv(p, h1) && IsFree(h.blocks, x) && kind.Used? && x < mid <= x + h.blocks[x].size
    requires x + h.blocks[x].size in h.blocks
    requires h1.blocks == Retile(h.blocks, x, mid, x + h.blocks[x].size, kind)
    requires IsUsed(h1.blocks, b) && !IsUsed(h.blocks, b)
    ensures var hi := x + h.blocks[x].size;
            && b == x && FreeEnd(p, h1, x) == hi && PrevFree(h1, x) == []
            && NextFree(h1, x) == (if mid < hi then [mid] else [])
            && (mid < hi ==> mid in h1.blocks && h1.blocks[mid].size == hi - mid && mid !in h.blocks)
  {
    hide Inv;
    FreeAround(p, h, x);
  }

  /** The neighbours of a free block are not free. */
  lemma FreeAround(p: Params, h: Heap, x: int)
    requires Inv(p, h) && IsFree(h.blocks, x)
    ensures var hi := x + h.blocks[x].size;
            && hi in h.blocks && x < hi && !IsFree(h.blocks, hi) && !IsFree(h.blocks, h.blocks[x].prev)
            && h.blocks[x].prev < x && 0 !in h.blocks
            && (forall y :: y in h.blocks && x < y ==> hi <= y)
  {
    hide ListsOk, Aligned, G, H, PayloadOk, PoolOk, PoolsApart;
    assert BlockOk(p, h.pools, h.blocks, x);
    assert BlockOk(p, h.pools, h.blocks, 0);
    assert BlockOk(p, h.pools, h.blocks, h.blocks[x].prev);
    forall y | y in h.blocks && x < y
      ensures x + h.blocks[x].size <= y
    {
      assert Apart(h.blocks, x, y);
    }
  }

  lemma ListsRestored(p: Params, h: Heap, c: Class, x: int, mid: int, hi: int, h1: Heap)
    requires Inv(p, h) && c in h.lists && h.lists[c] != [] && x == h.lists[c][0] && IsFree(h.blocks, x)
    requires hi == x + h.blocks[x].size && x < mid <= hi
    requires var l := Unlink(p, h.lists, x, h.blocks[x].size);
             h1.lists == if mid < hi then Link(p, l, mid, hi - mid) else l
    requires mid < hi ==> mid in h1.blocks && h1.blocks[mid].size == hi - mid
    requires mid < hi ==> mid !in h.blocks && ListOf(p, hi - mid).Some?
    ensures Link(p, UnlinkAll(p, h1.lists, h1.blocks, if mid < hi then [mid] else []), x, hi - x) == h.lists
  {
    hide TilingOk, ListsOk, ListOf, Link, Unlink;
    var free := FreeBlocks(h.blocks);
    var l := Unlink(p, h.lists, x, h.blocks[x].size);
    UnlinkOk(p, h.lists, free, x);
    FirstOfItsList(p, h, c, x);
    RelinkFirst(p, h.lists, free, x);
    if mid < hi {
      UnlinkAllIs(p, h1.lists, h1.blocks, mid, mid);
      LinkUnlink(p, l, free - {x}, mid, hi - mid);
    }
  }

  lemma FirstOfItsList(p: Params, h: Heap, c: Class, x: int)
    requires Inv(p, h) && c in h.lists && h.lists[c] != [] && x == h.lists[c][0] && IsFree(h.blocks, x)
    ensures ListOf(p, h.blocks[x].size) == Some(c)
  {
    hide TilingOk, ListOf;
    assert ListOk(p, h.lists, FreeBlocks(h.blocks), c);
    assert x in h.lists[c];
  }

  // ----- pools are tiled, and drain -----

  /** The blocks from `a` to the end of its pool. */
  ghost function Walk(p: Params, h: Heap, a: int): seq<int>
    requires Inv(p, h) && a in h.blocks
    decreases Top(p) - a
  {
    if h.blocks[a].kind.Sentinel? then [a]
    else
      WalkStep(p, h, a);
      [a] + Walk(p, h, a + h.blocks[a].size)
  }

  lemma WalkStep(p: Params, h: Heap, a: int)
    requires Inv(p, h) && a in h.blocks
    ensures 0 < h.blocks[a].size && a + h.blocks[a].size <= Top(p)
    ensures !h.blocks[a].kind.Sentinel? ==>
              a + h.blocks[a].size in h.blocks && h.blocks[a + h.blocks[a].size].pool == h.blocks[a].pool
    ensures h.blocks[a].pool in h.pools && h.blocks[a].pool <= a && a + h.blocks[a].size <= h.pools[h.blocks[a].pool]
    ensures h.blocks[a].kind.Sentinel? <==> a + h.blocks[a].size == h.pools[h.blocks[a].pool]
  {
    hide ListsOk, Aligned, PayloadOk, Apart;
    assert BlockOk(p, h.pools, h.blocks, a);
    assert PoolOk(p, h.pools, h.blocks, h.blocks[a].pool);
  }

  /** The sum of the sizes of the given blocks. */
  ghost function TotalSize(bs: Tiling, w: seq<int>): int {
    if w == [] then 0 else (if w[0] in bs then bs[w[0]].size else 0) + TotalSize(bs, w[1..])
  }

  /** Blocks that follow each other without a gap, the last of them and no other being a sentinel. */
  ghost predicate Tiles(bs: Tiling, w: seq<int>) {
    && w != [] && (forall i :: 0 <= i < |w| ==> w[i] in bs)
    && (forall i :: 0 <= i < |w| - 1 ==> w[i] + bs[w[i]].size == w[i + 1])
    && (forall i :: 0 <= i < |w| ==> (bs[w[i]].kind.Sentinel? <==> i == |w| - 1))
  }

  lemma TilesCons(bs: Tiling, a: int, w: seq<int>)
    requires Tiles(bs, w) && a in bs && !bs[a].kind.Sentinel? && a + bs[a].size == w[0]
    ensures Tiles(bs, [a] + w)
  {
    var v := [a] + w;
    forall i | 0 <= i < |v| - 1
      ensures v[i] + bs[v[i]].size == v[i + 1]
    {
      if i > 0 {
        assert w[i - 1] + bs[w[i - 1]].size == w[i];
      }
    }
  }

  /**
   From a block onwards its pool is tiled without gaps up to exactly one sentinel, the sizes add up, and
   every later block of the pool is met.
   */
  lemma {:induction false} WalkTiles(p: Params, h: Heap, a: int)
    requires Inv(p, h) && a in h.blocks
    ensures h.blocks[a].pool in h.pools
    ensures Tiles(h.blocks, Walk(p, h, a)) && Walk(p, h, a)[0] == a
    ensures TotalSize(h.blocks, Walk(p, h, a)) == h.pools[h.blocks[a].pool] - a
    decreases Top(p) - a
  {
    hide Inv, Tiles;
    WalkStep(p, h, a);
    if !h.blocks[a].kind.Sentinel? {
      var n := a + h.blocks[a].size;
      WalkTiles(p, h, n);
      TilesCons(h.blocks, a, Walk(p, h, n));
      assert ([a] + Walk(p, h, n))[1..] == Walk(p, h, n);
    } else {
      OneTile(h.blocks, a);
      assert [a][1..] == [];
    }
  }

  lemma OneTile(bs: Tiling, a: int)
    requires a in bs && bs[a].kind.Sentinel?
    ensures Tiles(bs, [a])
  {
  }

  lemma {:induction false} WalkMeets(p: Params, h: Heap, a: int, b: int)
    requires Inv(p, h) && a in h.blocks && b in h.blocks && h.blocks[b].pool == h.blocks[a].pool && a <= b
    ensures b in Walk(p, h, a)
    decreases Top(p) - a
  {
    hide Inv;
    WalkStep(p, h, a);
    if a < b {
      BehindBlock(p, h, a, b);
      WalkMeets(p, h, a + h.blocks[a].size, b);
    }
  }

  lemma BehindBlock(p: Params, h: Heap, a: int, b: int)
    requires Inv(p, h) && a in h.blocks && b in h.blocks && h.blocks[b].pool == h.blocks[a].pool && a < b
    ensures a + h.blocks[a].size <= b && !h.blocks[a].kind.Sentinel?
  {
    WalkStep(p, h, a);
    WalkStep(p, h, b);
    assert Apart(h.blocks, a, b);
  }

  /** A pool is tiled from its very start: its block sizes add up to the bytes of the pool. */
  lemma PoolTiled(p: Params, h: Heap, s: int)
    requires Inv(p, h) && s in h.pools
    ensures s in h.blocks && h.blocks[s].pool == s && h.blocks[s].prev == 0
    ensures Tiles(h.blocks, Walk(p, h, s)) && TotalSize(h.blocks, Walk(p, h, s)) == h.pools[s] - s
    ensures forall b :: b in h.blocks && h.blocks[b].pool == s ==> b in Walk(p, h, s)
  {
    hide Walk, Tiles, TotalSize;
    assert PoolOk(p, h.pools, h.blocks, s);
    assert BlockOk(p, h.pools, h.blocks, s);
    WalkTiles(p, h, s);
    forall b | b in h.blocks && h.blocks[b].pool == s
      ensures b in Walk(p, h, s)
    {
      WalkStep(p, h, b);
      WalkMeets(p, h, s, b);
    }
  }

  /** A pool without used blocks consists of one free block and the sentinel. */
  lemma Drained(p: Params, h: Heap, s: int)
    requires Inv(p, h) && s in h.pools
    requires forall b :: IsUsed(h.blocks, b) ==> h.blocks[b].pool != s
    ensures IsFree(h.blocks, s) && h.blocks[s].size == h.pools[s] - s - G(p)
    ensures forall b :: b in h.blocks && h.blocks[b].pool == s <==> b == s || b == h.pools[s] - G(p)
  {
    hide ListsOk, Aligned, PayloadOk, G, H, PoolsApart;
    assert PoolOk(p, h.pools, h.blocks, s);
    assert BlockOk(p, h.pools, h.blocks, s);
    var n := s + h.blocks[s].size;
    assert BlockOk(p, h.pools, h.blocks, n);
    forall b | b in h.blocks && h.blocks[b].pool == s
      ensures b == s || b == n
    {
      assert BlockOk(p, h.pools, h.blocks, b);
      assert Apart(h.blocks, s, b) && Apart(h.blocks, n, b);
    }
  }

  // ----- when an allocation succeeds -----

  /**
   An allocation succeeds exactly when some free block reaches the lower bound of the list that
   `map_ceil` names for the search size.
   */
  lemma AllocateSucceedsIff(p: Params, h: Heap, layout: Layout)
    requires Inv(p, h)
    ensures SearchSize(p, layout).Some? ==> Granular(p, SearchSize(p, layout).value)
    ensures Allocate(p, h, layout).Done? <==>
            && SearchSize(p, layout).Some?
            && MapCeilAndUnmap(p, SearchSize(p, layout).value).Some?
            && exists b ::
                 IsFree(h.blocks, b) && MapCeilAndUnmap(p, SearchSize(p, layout).value).value <= h.blocks[b].size
  {
    hide Inv, SearchSize, MapCeil, MapFloor, MapCeilAndUnmap, FirstFrom, AllocateAt, Granular, Allocate;
    AllocateIs(p, h, layout);
    if SearchSize(p, layout).Some? {
      var s := SearchSize(p, layout).value;
      if Allocate(p, h, layout).Done? {
        var c := FirstFrom(p, h.lists, MapCeil(p, s).value).value;
        FoundIsLarge(p, h, s, c);
      } else if MapCeilAndUnmap(p, s).Some? {
        forall b | IsFree(h.blocks, b)
          ensures h.blocks[b].size < MapCeilAndUnmap(p, s).value
        {
          if MapCeilAndUnmap(p, s).value <= h.blocks[b].size {
            LargeIsFound(p, h, s, b);
            FoundIsLarge(p, h, s, FirstFrom(p, h.lists, MapCeil(p, s).value).value);
            AllocateAtDone(p, h, s, layout);
            assert false;
          }
        }
      }
    }
  }

  lemma AllocateAtDone(p: Params, h: Heap, s: nat, layout: Layout)
    requires Inv(p, h) && SearchSize(p, layout) == Some(s) && Granular(p, s)
    requires MapCeil(p, s).Some? && FirstFrom(p, h.lists, MapCeil(p, s).value).Some?
    ensures Allocate(p, h, layout).Done?
  {
    hide Inv, SearchSize, MapCeil, FirstFrom, AllocateAt, Granular, Allocate;
    AllocateIs(p, h, layout);
    var c := FirstFrom(p, h.lists, MapCeil(p, s).value).value;
    AllocateAtOk(p, h, h.lists[c][0], layout);
  }

  /** The first block of the list that the scan finds reaches the bound, which therefore fits a word. */
  lemma FoundIsLarge(p: Params, h: Heap, s: nat, c: Class)
    requires Inv(p, h) && Granular(p, s) && MapCeil(p, s).Some?
    requires FirstFrom(p, h.lists, MapCeil(p, s).value) == Some(c)
    ensures c in h.lists && h.lists[c] != [] && IsFree(h.blocks, h.lists[c][0])
    ensures MapCeilAndUnmap(p, s).Some? && MapCeilAndUnmap(p, s).value <= h.blocks[h.lists[c][0]].size
  {
    hide TilingOk, MapCeil, MapFloor, MapCeilAndUnmap, FirstFrom, Granular, ListOf, Floor, Ceil, LowerBound, Top,
      Levels;
    FirstFromFound(p, h.lists, MapCeil(p, s).value);
    var b := h.lists[c][0];
    assert ListOk(p, h.lists, FreeBlocks(h.blocks), c);
    assert b in h.lists[c];
    var x := h.blocks[b].size;
    ListOfIs(p, x);
    if MapCeilAndUnmap(p, s).None? {
      UnmapNone(p, s);
      HasListCeil(p, s);
      MapFloorIs(p, x);
      FloorGalois(p, x, MapCeil(p, s).value);
      TooLarge(p, x);
      assert false;
    }
    UnmapIsLeast(p, s);
  }

  lemma TooLarge(p: Params, x: nat)
    requires Granular(p, x)
    ensures x * Sllen(p) < Top(p) * Sllen(p)
  {
    MulLt(x, Top(p), Sllen(p));
  }

  lemma LargeIsFound(p: Params, h: Heap, s: nat, b: int)
    requires Inv(p, h) && Granular(p, s) && MapCeilAndUnmap(p, s).Some? && IsFree(h.blocks, b)
    requires MapCeilAndUnmap(p, s).value <= h.blocks[b].size
    ensures MapCeil(p, s).Some? && FirstFrom(p, h.lists, MapCeil(p, s).value).Some?
  {
    hide TilingOk, MapCeil, MapFloor, MapCeilAndUnmap, FirstFrom, Granular, ListOf;
    UnmapIsLeast(p, s);
    var free := FreeBlocks(h.blocks);
    UnlinkOk(p, h.lists, free, b);
    var x := h.blocks[b].size;
    ListOfIs(p, x);
    var d := MapFloor(p, x).value;
    FirstFromIs(p, h.lists, MapCeil(p, s).value, d);
  }

  /** The bytes that a block needs for an allocation in the worst place, in whole granules. */
  ghost function Need(p: Params, layout: Layout): int {
    RoundUp((if layout.alignLog < p.gl then H(p) else Pow2(layout.alignLog)) + layout.size, G(p))
  }

  /** That is the search size, wherever it fits a word. */
  lemma SearchSizeIs(p: Params, layout: Layout)
    ensures 0 < Need(p, layout) && Aligned(p, Need(p, layout))
    ensures SearchSize(p, layout) == if Need(p, layout) < Top(p) then Some(Need(p, layout)) else None
    ensures Need(p, layout) < Top(p) ==> Granular(p, Need(p, layout))
  {
    hide RoundUp, Pow2, Aligned, G, H, Top, BlockSize, Granular;
    SmallAlignment(p, layout.alignLog);
    var o := MaxOverhead(p, layout.alignLog);
    RoundUpAligned(p, o + layout.size);
    if BlockSize(p, o, layout.size).Some? {
      BlockSizeOk(p, o, layout.size);
      BlockSizeBelow(p, o, layout.size);
    } else {
      BlockSizeNone(p, o, layout.size);
      TopAligned(p);
      AlignedApart(p, Need(p, layout), Top(p));
    }
  }

  lemma TopAligned(p: Params)
    ensures Aligned(p, Top(p))
  {
    WidthExceeds(p);
    TopIsMultiple(p, p.gl);
  }

  /**
   The same without the search size: an allocation succeeds exactly when the bytes needed in the worst place fit a
   word and some free block is at least as large as the least size of the list where their size is looked up.
   */
  lemma AllocateSucceedsExactly(p: Params, h: Heap, layout: Layout)
    requires Inv(p, h)
    ensures Need(p, layout) < Top(p) ==> Granular(p, Need(p, layout))
    ensures Allocate(p, h, layout).Done? <==>
            && Need(p, layout) < Top(p)
            && exists b :: IsFree(h.blocks, b) && LowerBound(p, Ceil(p, Need(p, layout))) <= h.blocks[b].size * Sllen(p)
  {
    hide Inv, SearchSize, MapCeil, MapFloor, MapCeilAndUnmap, Granular, Allocate, Need, Ceil, LowerBound, Top, Sllen;
    SearchSizeIs(p, layout);
    AllocateSucceedsIff(p, h, layout);
    if Need(p, layout) < Top(p) {
      forall b | IsFree(h.blocks, b)
        ensures LowerBound(p, Ceil(p, Need(p, layout))) <= h.blocks[b].size * Sllen(p) <==>
                && MapCeilAndUnmap(p, Need(p, layout)).Some?
                && MapCeilAndUnmap(p, Need(p, layout)).value <= h.blocks[b].size
      {
        ReachesBound(p, h, Need(p, layout), b);
      }
    }
  }

  /** A free block reaches the least size of a list exactly when that size fits a word and the block is that large. */
  lemma ReachesBound(p: Params, h: Heap, s: nat, b: int)
    requires Inv(p, h) && IsFree(h.blocks, b) && Granular(p, s)
    ensures LowerBound(p, Ceil(p, s)) <= h.blocks[b].size * Sllen(p) <==>
            MapCeilAndUnmap(p, s).Some? && MapCeilAndUnmap(p, s).value <= h.blocks[b].size
  {
    hide ListsOk, TilingOk, MapCeil, MapFloor, MapCeilAndUnmap, Granular, Floor, Ceil, LowerBound, Sllen, Levels, Log2,
      Top;
    var x := h.blocks[b].size;
    FreeHasList(p, h.pools, h.blocks, b);
    ListOfIs(p, x);
    if MapCeilAndUnmap(p, s).Some? {
      var m := MapCeilAndUnmap(p, s).value;
      UnmapIsLowerBound(p, s);
      if m <= x {
        MulLe(m, x, Sllen(p));
      } else {
        MulLt(x, m, Sllen(p));
      }
    } else {
      UnmapNone(p, s);
      FloorGalois(p, x, Ceil(p, s));
      MapFloorIs(p, x);
      LevelOf(p, x);
    }
  }

  /** The level of a size that has a list is one whose list minimum fits a word. */
  lemma LevelOf(p: Params, x: nat)
    requires Granular(p, x) && MapFloor(p, x).Some?
    ensures Floor(p, x).fl < Levels(p)
  {
    hide MapFloor, Floor;
    MapFloorIs(p, x);
    Log2Below(x, p.w);
  }

  /**
   Fragmentation: when an allocation fails although its list exists, every free block is smaller than the
   search size plus one part in `SLLEN`.
   */
  lemma FragmentationBound(p: Params, h: Heap, layout: Layout, b: int)
    requires Inv(p, h) && Allocate(p, h, layout).Fail? && IsFree(h.blocks, b)
    requires SearchSize(p, layout).Some? && Granular(p, SearchSize(p, layout).value)
    requires MapCeilAndUnmap(p, SearchSize(p, layout).value).Some?
    ensures var s := SearchSize(p, layout).value;
            h.blocks[b].size < s + s / Sllen(p)
  {
    hide Inv, SearchSize, MapCeilAndUnmap, Granular, Allocate, Sllen;
    AllocateSucceedsIff(p, h, layout);
    UnmapIsTight(p, SearchSize(p, layout).value);
  }
}
