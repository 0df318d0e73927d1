/**
 The regions that were obtained from a memory source, the pools inside them, and the footers that chain
 the regions up.
 */
module Regions {
  import opened Arith
  import opened Config
  import opened Blocks
  import opened FreeLists
  import opened Heap
  import opened Operations
  import opened Memory
  import opened Represent
  import opened Growth
  import opened Runs

  datatype Region = Region(start: int, len: int)

  function End(r: Region): int {
    r.start + r.len
  }

  ghost predicate RegionOk(p: Params, r: Region) {
    0 < r.start && 2 * G(p) <= r.len && End(r) <= Top(p)
  }

  ghost predicate Disjoint(r: Region, t: Region) {
    End(r) <= t.start || End(t) <= r.start
  }

  /** The regions in the order in which they were obtained. */
  ghost predicate ChainOk(p: Params, chain: seq<Region>) {
    && (forall i :: 0 <= i < |chain| ==> RegionOk(p, chain[i]))
    && (forall i, j :: 0 <= i < |chain| && 0 <= j < |chain| && i != j ==> Disjoint(chain[i], chain[j]))
  }

  /** Where the footer of a region is: at its end, rounded down to a word unless the source aligns to words. */
  function FooterOf(p: Params, alignLog: nat, r: Region): int
    requires RegionOk(p, r)
  {
    var f := End(r) - H(p);
    if alignLog < p.gl - 2 then
      WidthExceeds(p);
      MaskDown(p, f, p.gl - 2)
    else f
  }

  /** The footer is inside its region, and no lower than the unused half of a sentinel that ends at `e`. */
  lemma FooterPlace(p: Params, alignLog: nat, r: Region, e: int)
    requires RegionOk(p, r) && Aligned(p, e) && e <= End(r)
    ensures e - H(p) <= FooterOf(p, alignLog, r) && FooterOf(p, alignLog, r) + H(p) <= End(r)
  {
    hide Pow2, RoundDown, Top;
    FooterBounds(p, alignLog, r);
    HalfMultiple(p, e);
    RoundDownGreatest(End(r) - H(p), e - H(p), Pow2(p.gl - 2));
  }

  lemma HalfMultiple(p: Params, e: int)
    requires Aligned(p, e)
    ensures 0 < Pow2(p.gl - 2) && (e - H(p)) % Pow2(p.gl - 2) == 0
  {
    hide Pow2, H, G, Aligned;
    HalfIsTwoWords(p);
    AlignedToWords(p, e);
    var word := Pow2(p.gl - 2);
    MultipleIs(2, word);
    MultipleDiff(e, 2 * word, word);
  }

  lemma AlignedToWords(p: Params, e: int)
    requires Aligned(p, e)
    ensures 0 < Pow2(p.gl - 2) && e % Pow2(p.gl - 2) == 0
  {
    MultipleOfSmaller(e, p.gl - 2, p.gl);
  }

  lemma HalfIsTwoWords(p: Params)
    ensures H(p) == 2 * Pow2(p.gl - 2) && 0 < Pow2(p.gl - 2)
  {
  }

  lemma FooterBounds(p: Params, alignLog: nat, r: Region)
    requires RegionOk(p, r)
    ensures 0 <= FooterOf(p, alignLog, r) && FooterOf(p, alignLog, r) + H(p) <= End(r)
    ensures alignLog < p.gl - 2 ==> FooterOf(p, alignLog, r) == RoundDown(End(r) - H(p), Pow2(p.gl - 2))
    ensures alignLog >= p.gl - 2 ==> FooterOf(p, alignLog, r) == End(r) - H(p)
  {
    hide Pow2, RoundDown, Top;
    WidthExceeds(p);
    RoundDownProps(End(r) - H(p), Pow2(p.gl - 2));
  }

  /** A longer region has its footer no lower. */
  lemma FooterMono(p: Params, alignLog: nat, r: Region, len: int)
    requires RegionOk(p, r) && RegionOk(p, Region(r.start, len)) && r.len <= len
    ensures FooterOf(p, alignLog, r) <= FooterOf(p, alignLog, Region(r.start, len))
  {
    hide Pow2, RoundDown, Top;
    var t := Region(r.start, len);
    FooterBounds(p, alignLog, r);
    FooterBounds(p, alignLog, t);
    RoundDownProps(End(r) - H(p), Pow2(p.gl - 2));
    RoundDownGreatest(End(t) - H(p), RoundDown(End(r) - H(p), Pow2(p.gl - 2)), Pow2(p.gl - 2));
  }

  // ----- pools in regions -----

  /** Pool `s` is inside the region and touches the footer only with the unused half of its sentinel. */
  ghost predicate Within(p: Params, alignLog: nat, pools: Pools, s: int, r: Region)
    requires RegionOk(p, r)
  {
    s in pools && r.start <= s && pools[s] - H(p) <= FooterOf(p, alignLog, r)
  }

  ghost predicate HousedIn(p: Params, alignLog: nat, pools: Pools, chain: seq<Region>, s: int)
    requires ChainOk(p, chain)
  {
    exists i :: 0 <= i < |chain| && Within(p, alignLog, pools, s, chain[i])
  }

  /** Every pool is in a region. */
  ghost predicate Housed(p: Params, alignLog: nat, pools: Pools, chain: seq<Region>)
    requires ChainOk(p, chain)
  {
    forall s :: s in pools ==> HousedIn(p, alignLog, pools, chain, s)
  }

  /** An address that no header, link, pad or payload has. */
  ghost predicate Unused(p: Params, pools: Pools, a: int) {
    forall s :: s in pools ==> !(s <= a < pools[s] - H(p))
  }

  /** A range inside a pool that ends before the unused half of the sentinel does not meet a footer. */
  lemma FooterAvoids(p: Params, alignLog: nat, pools: Pools, chain: seq<Region>, j: nat, s: int, x: int, y: int)
    requires ChainOk(p, chain) && Housed(p, alignLog, pools, chain) && j < |chain|
    requires s in pools && s <= x && y <= pools[s] - H(p)
    ensures var f := FooterOf(p, alignLog, chain[j]);
            y <= f || f + H(p) <= x
  {
    hide FooterOf, H, Top;
    FooterInside(p, alignLog, chain[j]);
    assert HousedIn(p, alignLog, pools, chain, s);
    var i :| 0 <= i < |chain| && Within(p, alignLog, pools, s, chain[i]);
    FooterInside(p, alignLog, chain[i]);
  }

  /** No byte of a footer lies where an allocator writes. */
  lemma FooterUnused(p: Params, alignLog: nat, pools: Pools, chain: seq<Region>, j: nat)
    requires ChainOk(p, chain) && Housed(p, alignLog, pools, chain) && j < |chain|
    ensures var f := FooterOf(p, alignLog, chain[j]);
            Unused(p, pools, f) && forall a :: f <= a < f + H(p) ==> Unused(p, pools, a)
  {
    hide FooterOf, H, Top, ChainOk, Housed, RegionOk;
    ChainRegions(p, chain);
    var f := FooterOf(p, alignLog, chain[j]);
    forall a | f <= a < f + H(p)
      ensures Unused(p, pools, a)
    {
      forall s | s in pools
        ensures !(s <= a < pools[s] - H(p))
      {
        FooterAvoids(p, alignLog, pools, chain, j, s, s, pools[s] - H(p));
      }
    }
  }

  lemma FooterInside(p: Params, alignLog: nat, r: Region)
    requires RegionOk(p, r)
    ensures r.start <= FooterOf(p, alignLog, r) && FooterOf(p, alignLog, r) + H(p) <= End(r)
  {
    hide Pow2, RoundDown, Top;
    FooterBounds(p, alignLog, r);
    HalfIsTwoWords(p);
    RoundDownProps(End(r) - H(p), Pow2(p.gl - 2));
  }

  // ----- the chain of footers -----

  /** The footer of a region holds the region obtained before it, or null. */
  ghost predicate FooterAt(p: Params, alignLog: nat, chain: seq<Region>, m: Memory, i: int)
    requires ChainOk(p, chain)
  {
    0 <= i < |chain| ==>
      var c := Load(m, FooterOf(p, alignLog, chain[i]));
      if i == 0 then c.w0 == 0 else c == Cell(chain[i - 1].start, chain[i - 1].len)
  }

  ghost predicate Linked(p: Params, alignLog: nat, chain: seq<Region>, m: Memory)
    requires ChainOk(p, chain)
  {
    forall i {:trigger FooterAt(p, alignLog, chain, m, i)} :: FooterAt(p, alignLog, chain, m, i)
  }

  lemma LinkedSame(p: Params, alignLog: nat, chain: seq<Region>, m: Memory, m': Memory)
    requires ChainOk(p, chain) && Linked(p, alignLog, chain, m)
    requires forall i :: 0 <= i < |chain| ==>
               Load(m', FooterOf(p, alignLog, chain[i])) == Load(m, FooterOf(p, alignLog, chain[i]))
    ensures Linked(p, alignLog, chain, m')
  {
    hide FooterOf, Load, RegionOk, Disjoint;
    forall i
      ensures FooterAt(p, alignLog, chain, m', i)
    {
      assert FooterAt(p, alignLog, chain, m, i);
    }
  }

  /** What the allocator writes inside its pools leaves the footers alone. */
  lemma LinkedKept(p: Params, alignLog: nat, pools: Pools, chain: seq<Region>, m: Memory, m': Memory)
    requires ChainOk(p, chain) && Housed(p, alignLog, pools, chain) && Linked(p, alignLog, chain, m)
    requires OutsideKept(p, pools, m, m')
    ensures Linked(p, alignLog, chain, m')
  {
    hide ChainOk, Housed, FooterOf, Load, Linked, H;
    ChainRegions(p, chain);
    forall i | 0 <= i < |chain|
      ensures Load(m', FooterOf(p, alignLog, chain[i])) == Load(m, FooterOf(p, alignLog, chain[i]))
    {
      FooterUnused(p, alignLog, pools, chain, i);
    }
    LinkedSame(p, alignLog, chain, m, m');
  }

  lemma ChainRegions(p: Params, chain: seq<Region>)
    requires ChainOk(p, chain)
    ensures forall i :: 0 <= i < |chain| ==> RegionOk(p, chain[i])
  {
  }

  /** So do the writes into a range that no footer is in. */
  lemma LinkedKeptBut(p: Params, alignLog: nat, pools: Pools, chain: seq<Region>, s: int, e: int, m: Memory, m': Memory)
    requires ChainOk(p, chain) && Housed(p, alignLog, pools, chain) && Linked(p, alignLog, chain, m)
    requires OutsideKeptBut(p, pools, s, e, m, m')
    requires forall i :: 0 <= i < |chain| ==> !(s <= FooterOf(p, alignLog, chain[i]) < e)
    ensures Linked(p, alignLog, chain, m')
  {
    hide ChainOk, Housed, FooterOf, Load, Linked, H;
    ChainRegions(p, chain);
    forall i | 0 <= i < |chain|
      ensures Load(m', FooterOf(p, alignLog, chain[i])) == Load(m, FooterOf(p, alignLog, chain[i]))
    {
      FooterUnused(p, alignLog, pools, chain, i);
    }
    LinkedSame(p, alignLog, chain, m, m');
  }

  /** Footers of different regions are different cells. */
  lemma FootersApart(p: Params, alignLog: nat, r: Region, t: Region)
    requires RegionOk(p, r) && RegionOk(p, t) && Disjoint(r, t)
    ensures !(t.start <= FooterOf(p, alignLog, r) < End(t))
    ensures FooterOf(p, alignLog, r) != FooterOf(p, alignLog, t)
  {
    hide FooterOf, Top;
    FooterInside(p, alignLog, r);
    FooterInside(p, alignLog, t);
  }

  // ----- a new region -----

  /** A region apart from all others is clear of pools. */
  lemma FreshClear(p: Params, alignLog: nat, pools: Pools, chain: seq<Region>, r: Region)
    requires ChainOk(p, chain) && Housed(p, alignLog, pools, chain)
    requires forall i :: 0 <= i < |chain| ==> Disjoint(chain[i], r)
    ensures Clear(pools, r.start, End(r))
  {
    hide FooterOf, Top, G, H;
    forall s | s in pools
      ensures pools[s] <= r.start || End(r) <= s
    {
      assert HousedIn(p, alignLog, pools, chain, s);
      var i :| 0 <= i < |chain| && Within(p, alignLog, pools, s, chain[i]);
      FooterInside(p, alignLog, chain[i]);
    }
  }

  lemma ChainExtends(p: Params, chain: seq<Region>, r: Region)
    requires ChainOk(p, chain) && RegionOk(p, r) && forall i :: 0 <= i < |chain| ==> Disjoint(chain[i], r)
    ensures ChainOk(p, chain + [r])
  {
    hide RegionOk, End;
  }

  /** Old pools are as before and new ones lie in `[s0, e)`. */
  ghost predicate Added(pools: Pools, pools': Pools, s0: int, e: int) {
    forall s :: s in pools' ==> (s in pools && pools'[s] == pools[s]) || (s0 <= s && pools'[s] <= e)
  }

  lemma NewHoused(p: Params, alignLog: nat, h: Heap, h': Heap, chain: seq<Region>, r: Region, s0: int, e: int)
    requires ChainOk(p, chain) && ChainOk(p, chain + [r]) && Housed(p, alignLog, h.pools, chain) && Inv(p, h')
    requires Added(h.pools, h'.pools, s0, e) && r.start <= s0 && e <= End(r)
    ensures Housed(p, alignLog, h'.pools, chain + [r])
  {
    hide FooterOf, Top, G, H, BlockOk, Apart, ListsOk, Aligned, End, RegionOk, Disjoint;
    var chain' := chain + [r];
    assert chain'[|chain|] == r;
    forall s | s in h'.pools
      ensures HousedIn(p, alignLog, h'.pools, chain', s)
    {
      if s in h.pools && h'.pools[s] == h.pools[s] {
        assert HousedIn(p, alignLog, h.pools, chain, s);
        var i :| 0 <= i < |chain| && Within(p, alignLog, h.pools, s, chain[i]);
        assert chain'[i] == chain[i];
        assert Within(p, alignLog, h'.pools, s, chain'[i]);
      } else {
        assert PoolOk(p, h'.pools, h'.blocks, s);
        FooterPlace(p, alignLog, r, h'.pools[s]);
        assert Within(p, alignLog, h'.pools, s, chain'[|chain|]);
      }
    }
  }

  /** Writing the footer of a new region links it to the one before. */
  lemma LinkedNew(p: Params, alignLog: nat, chain: seq<Region>, r: Region, c: Cell, m: Memory)
    requires ChainOk(p, chain) && ChainOk(p, chain + [r]) && RegionOk(p, r) && Linked(p, alignLog, chain, m)
    requires if chain == [] then c.w0 == 0 else c == Cell(chain[|chain| - 1].start, chain[|chain| - 1].len)
    ensures Linked(p, alignLog, chain + [r], Store(m, FooterOf(p, alignLog, r), c))
  {
    hide FooterOf, Top, G, H, Load, Store;
    var chain' := chain + [r];
    forall i
      ensures FooterAt(p, alignLog, chain', Store(m, FooterOf(p, alignLog, r), c), i)
    {
      if 0 <= i < |chain| {
        assert FooterAt(p, alignLog, chain, m, i);
        assert chain'[i] == chain[i] && chain'[|chain|] == r;
        FootersApart(p, alignLog, chain'[i], r);
      }
    }
  }

  // ----- a longer region -----

  /** The last region grown to `len` bytes. */
  ghost function Longer(chain: seq<Region>, len: int): (r: seq<Region>)
    requires chain != []
    ensures |r| == |chain|
  {
    chain[|chain| - 1 := Region(chain[|chain| - 1].start, len)]
  }

  lemma ChainGrows(p: Params, chain: seq<Region>, len: int)
    requires ChainOk(p, chain) && chain != [] && chain[|chain| - 1].len <= len
    requires chain[|chain| - 1].start + len <= Top(p)
    requires forall i :: 0 <= i < |chain| - 1 ==> Disjoint(chain[i], Region(chain[|chain| - 1].start, len))
    ensures ChainOk(p, Longer(chain, len))
  {
  }

  /** Growing a region keeps the pools housed. */
  lemma StillHoused(p: Params, alignLog: nat, pools: Pools, chain: seq<Region>, len: int)
    requires ChainOk(p, chain) && chain != [] && Housed(p, alignLog, pools, chain)
    requires ChainOk(p, Longer(chain, len)) && chain[|chain| - 1].len <= len
    ensures Housed(p, alignLog, pools, Longer(chain, len))
  {
    hide FooterOf, Top, G, H, RegionOk, Disjoint;
    var chain', last := Longer(chain, len), |chain| - 1;
    assert chain'[last] == Region(chain[last].start, len);
    FooterMono(p, alignLog, chain[last], len);
    forall s | s in pools
      ensures HousedIn(p, alignLog, pools, chain', s)
    {
      assert HousedIn(p, alignLog, pools, chain, s);
      var i :| 0 <= i < |chain| && Within(p, alignLog, pools, s, chain[i]);
      assert i != last ==> chain'[i] == chain[i];
      assert Within(p, alignLog, pools, s, chain'[i]);
    }
  }

  /** The footer of the grown region is moved before anything else is written. */
  lemma LinkedLonger(p: Params, alignLog: nat, chain: seq<Region>, len: int, m: Memory)
    requires ChainOk(p, chain) && chain != [] && Linked(p, alignLog, chain, m)
    requires ChainOk(p, Longer(chain, len))
    ensures var last := |chain| - 1;
            var c := Load(m, FooterOf(p, alignLog, chain[last]));
            var m' := Store(m, FooterOf(p, alignLog, Longer(chain, len)[last]), c);
            Linked(p, alignLog, Longer(chain, len), m')
  {
    hide FooterOf, Top, G, H, Load, Store, RegionOk;
    var chain', last := Longer(chain, len), |chain| - 1;
    var m' := Store(m, FooterOf(p, alignLog, chain'[last]), Load(m, FooterOf(p, alignLog, chain[last])));
    forall i
      ensures FooterAt(p, alignLog, chain', m', i)
    {
      assert FooterAt(p, alignLog, chain, m, i);
      if 0 <= i < last {
        FootersApart(p, alignLog, chain'[i], chain'[last]);
      }
    }
  }

  /** The rest of the last region, however much it has grown, is clear of pools. */
  lemma GrownClear(p: Params, alignLog: nat, h: Heap, chain: seq<Region>, len: int, s0: int)
    requires Inv(p, h) && ChainOk(p, chain) && chain != [] && Housed(p, alignLog, h.pools, chain)
    requires ChainOk(p, Longer(chain, len))
    requires var r := chain[|chain| - 1];
             r.start <= s0 && Clear(h.pools, s0, End(r)) && r.len <= len
    ensures Clear(h.pools, s0, chain[|chain| - 1].start + len)
  {
    hide FooterOf, Top, G, H, RegionOk, BlockOk, Apart, ListsOk;
    var last := |chain| - 1;
    var r := chain[last];
    forall s | s in h.pools
      ensures h.pools[s] <= s0 || r.start + len <= s
    {
      assert HousedIn(p, alignLog, h.pools, chain, s);
      var i :| 0 <= i < |chain| && Within(p, alignLog, h.pools, s, chain[i]);
      FooterInside(p, alignLog, chain[i]);
      assert PoolOk(p, h.pools, h.blocks, s);
      if i != last {
        assert Longer(chain, len)[i] == chain[i];
        assert Disjoint(Longer(chain, len)[i], Longer(chain, len)[last]);
      }
    }
  }

  /** Old pools are as before, but the one that ends at `s0` may grow, and new ones lie in `[s0, e)`. */
  ghost predicate Extended(pools: Pools, pools': Pools, s0: int, e: int) {
    forall s :: s in pools' ==>
      || (s in pools && pools'[s] == pools[s])
      || ((s0 <= s || (s in pools && pools[s] == s0)) && pools'[s] <= e)
  }

  lemma GrownHoused(p: Params, alignLog: nat, h: Heap, h': Heap, chain: seq<Region>, s0: int, e: int)
    requires ChainOk(p, chain) && chain != [] && Housed(p, alignLog, h.pools, chain) && Inv(p, h) && Inv(p, h')
    requires Extended(h.pools, h'.pools, s0, e)
    requires var r := chain[|chain| - 1];
             r.start < s0 <= e <= End(r)
    ensures Housed(p, alignLog, h'.pools, chain)
  {
    hide FooterOf, Top, G, H, BlockOk, Apart, ListsOk, Aligned, RegionOk;
    var last := |chain| - 1;
    var r := chain[last];
    forall s | s in h'.pools
      ensures HousedIn(p, alignLog, h'.pools, chain, s)
    {
      assert PoolOk(p, h'.pools, h'.blocks, s);
      if s in h.pools {
        assert PoolOk(p, h.pools, h.blocks, s);
        assert HousedIn(p, alignLog, h.pools, chain, s);
        var i :| 0 <= i < |chain| && Within(p, alignLog, h.pools, s, chain[i]);
        assert i != last ==> Disjoint(chain[i], chain[last]);
        if h'.pools[s] == h.pools[s] {
          assert Within(p, alignLog, h'.pools, s, chain[i]);
        } else {
          FooterInside(p, alignLog, chain[i]);
          FooterPlace(p, alignLog, r, h'.pools[s]);
          assert Within(p, alignLog, h'.pools, s, chain[last]);
        }
      } else {
        FooterPlace(p, alignLog, r, h'.pools[s]);
        assert Within(p, alignLog, h'.pools, s, chain[last]);
      }
    }
  }

  // ----- what insertion and appending make of the pools -----

  lemma InsertAdded(p: Params, h: Heap, start: int, size: int)
    ensures Added(h.pools, InsertAligned(p, h, start, size).pools, start, start + ChunkedLength(p, size))
  {
    hide ChunkPools, ChunkBlocks, ChunkLists, ChunkedLength;
    forall s | s in ChunkPools(p, start, size)
      ensures start <= s && ChunkPools(p, start, size)[s] <= start + ChunkedLength(p, size)
    {
      ChunkPoolsCounted(p, start, size, s);
    }
  }

  /** The last of the chunks ends in a sentinel. */
  lemma {:induction false} ChunksEnd(p: Params, start: int, size: int)
    requires 0 < ChunkedLength(p, size)
    ensures var cap := start + ChunkedLength(p, size) - G(p);
            cap in ChunkBlocks(p, start, size) && ChunkBlocks(p, start, size)[cap].kind.Sentinel?
    decreases size
  {
    hide G;
    var c := Chunk(p, size);
    ChunkedNonNegative(p, size - c);
    if 0 < ChunkedLength(p, size - c) {
      ChunksEnd(p, start + c, size - c);
      ChunkBlocksWithin(p, start + c, size - c, start + ChunkedLength(p, size) - G(p));
    }
  }

  lemma InsertEnds(p: Params, h: Heap, start: int, size: int)
    requires 0 < ChunkedLength(p, size)
    ensures EndsPool(p, InsertAligned(p, h, start, size), start + ChunkedLength(p, size))
  {
    hide ChunkPools, ChunkBlocks, ChunkLists, ChunkedLength, G;
    ChunksEnd(p, start, size);
  }

  /** Appending takes all but less than two granules, and the pool ends where the taken bytes end. */
  lemma AppendPools(p: Params, h: Heap, start: int, len: int)
    requires Inv(p, h) && EndsPool(p, h, start) && 2 * G(p) <= len < Top(p)
    requires start + len <= Top(p) && Clear(h.pools, start, start + len)
    ensures start - G(p) in h.blocks && Inv(p, Append(p, h, start, len))
    ensures var h', e := Append(p, h, start, len), start + AppendedLength(p, len);
            && Extended(h.pools, h'.pools, start, e) && EndsPool(p, h', e) && Aligned(p, e)
            && len - 2 * G(p) < AppendedLength(p, len) <= len && 0 < AppendedLength(p, len)
  {
    hide Inv, EndsPool, GoodRegion, Clear, RoundDown, G, H, Top, Extend, InsertAligned, ChunkedLength, Aligned,
      MaxPoolSize;
    AppendPlan(p, h, start, len);
    RoundedRest(p, len);
    RoundDownNear(p, len);
    var n := RoundDown(len, G(p));
    RegionAligned(p, h, start, n);
    if MaxPoolSize(p).Some? {
      InsertOk(p, h, start, n);
      InsertAdded(p, h, start, n);
      InsertEnds(p, h, start, n);
      ChunkedLengthIs(p, n);
      AlignedApart(p, start, ChunkedLength(p, n));
    } else {
      ExtendOk(p, h, start, n);
      ExtendPoolsAre(p, h, start, n);
      AlignedApart(p, start, n);
    }
  }

  lemma RoundDownNear(p: Params, x: int)
    ensures x - G(p) < RoundDown(x, G(p)) <= x
  {
    RoundDownProps(x, G(p));
  }

  lemma ExtendPoolsAre(p: Params, h: Heap, start: int, n: int)
    requires Inv(p, h) && EndsPool(p, h, start) && GoodRegion(p, h, start, n) && 0 < n
    ensures Extended(h.pools, Extend(p, h, start, n).pools, start, start + n)
    ensures EndsPool(p, Extend(p, h, start, n), start + n)
  {
    hide ListsOk, Aligned, PayloadOk, Link, Unlink, G, H, Apart, PoolOk, PoolsApart;
    assert BlockOk(p, h.pools, h.blocks, start - G(p));
  }

  /** The same for an inserted region. */
  lemma InsertPools(p: Params, h: Heap, start: int, len: int)
    requires Inv(p, h) && 0 < start && start + len <= Top(p) && Clear(h.pools, start, start + len)
    requires InsertedLength(p, start, len) != 0
    ensures Inv(p, InsertPtr(p, h, start, len))
    ensures var h', n := InsertPtr(p, h, start, len), InsertedLength(p, start, len);
            && Added(h.pools, h'.pools, start, start + n) && EndsPool(p, h', start + n) && Aligned(p, start + n)
            && len - 2 * G(p) < n <= len && 2 * G(p) <= n
  {
    hide Inv, EndsPool, Clear, RoundUp, RoundDown, G, H, Top, InsertAligned, ChunkedLength, Aligned, InsertPtr,
      InsertedLength;
    InsertCases(p, h, start, len);
    GPositive(p);
    RoundUpAligned(p, start);
    var pad := RoundUp(start, G(p)) - start;
    var n := RoundDown(len - pad, G(p));
    RoundDownNear(p, len - pad);
    ClearPart(h.pools, start, start + len, start + pad, start + pad + n);
    InsertOk(p, h, start + pad, n);
    InsertAdded(p, h, start + pad, n);
    InsertEnds(p, h, start + pad, n);
    ChunkedLengthIs(p, n);
    AlignedApart(p, start + pad, ChunkedLength(p, n));
  }

  /** Memory is taken exactly when there are two whole granules in it. */
  lemma InsertTakesIff(p: Params, start: int, len: int)
    ensures InsertedLength(p, start, len) != 0 <==>
            exists s :: start <= s && Aligned(p, s) && s + 2 * G(p) <= start + len
  {
    hide RoundUp, RoundDown, G, ChunkedLength, Aligned, InsertedLength, InsertPtr, InsertAligned;
    InsertCases(p, Heap(map[], map[], map[]), start, len);
    GPositive(p);
    RoundUpAligned(p, start);
    var first := RoundUp(start, G(p));
    if InsertedLength(p, start, len) != 0 {
      assert start <= first && Aligned(p, first) && first + 2 * G(p) <= start + len;
    } else {
      forall s | start <= s && Aligned(p, s)
        ensures start + len < s + 2 * G(p)
      {
        RoundUpBelow(p, start, s);
      }
    }
  }

  /** In particular when there are three granules, or two from an aligned start. */
  lemma InsertTakes(p: Params, start: int, len: int)
    requires 3 * G(p) <= len || (2 * G(p) <= len && Aligned(p, start))
    ensures InsertedLength(p, start, len) != 0
  {
    hide G, Aligned, InsertedLength, RoundUp;
    InsertTakesIff(p, start, len);
    RoundUpAligned(p, start);
    var first := RoundUp(start, G(p));
    if 3 * G(p) <= len {
      assert start <= first && Aligned(p, first) && first + 2 * G(p) <= start + len;
    } else {
      assert start <= start && Aligned(p, start) && start + 2 * G(p) <= start + len;
    }
  }
}
