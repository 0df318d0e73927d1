/** The allocator that obtains its pools from a memory source. */
module Flex {
  import opened Arith
  import opened Config
  import opened Blocks
  import opened FreeLists
  import opened Heap
  import opened Operations
  import opened Memory
  import opened Represent
  import opened Properties
  import opened Growth
  import opened TlsfAllocator
  import opened Runs
  import opened Regions

  /** A request for a new region, or to grow one, of at least `size` bytes, and whether it was granted. */
  datatype Request = NewRegion(size: nat, ok: bool) | GrowRegion(size: nat, ok: bool)

  /**
   A source of memory. Its answers are arbitrary within its contract: regions are apart from each other,
   as long as requested, aligned as promised, and grow without moving.
   */
  class Source {
    const p: Params
    /** The promised alignment is `Pow2(minAlignLog)`. */
    const minAlignLog: nat
    const supportsDealloc: bool
    const supportsGrow: bool
    const contiguousGrowable: bool
    /** The regions handed out to the manager and not given back: their lengths by their starts. */
    var live: map<int, int>
    /** The regions given back so far. */
    ghost var freed: seq<Region>
    /** What was requested so far, with the answers. */
    ghost var requests: seq<Request>
    /** How many regions were handed out so far. */
    ghost var granted: nat

    constructor (params: Params, alignLog: nat, dealloc: bool, grow: bool, contiguous: bool)
      ensures Valid() && live == map[] && freed == [] && requests == [] && granted == 0 && p == params
      ensures minAlignLog == alignLog && supportsDealloc == dealloc && supportsGrow == grow
      ensures contiguousGrowable == contiguous
    {
      p, minAlignLog, supportsDealloc, supportsGrow, contiguousGrowable := params, alignLog, dealloc, grow, contiguous;
      live, freed, requests, granted := map[], [], [], 0;
    }

    predicate UseGrowablePool() {
      supportsDealloc || supportsGrow
    }

    predicate WellAligned() {
      p.gl <= minAlignLog
    }

    ghost predicate Valid()
      reads this
    {
      && (forall s :: s in live ==> 0 < s && 0 < live[s] && s + live[s] <= Top(p))
      && (forall s, t :: s in live && t in live && s != t ==> Disjoint(Region(s, live[s]), Region(t, live[t])))
    }

    /** The region is in the address space and apart from all regions but the one at `but`. */
    predicate Offered(r: Region, but: int)
      reads this
    {
      0 < r.start && End(r) <= Top(p) && forall s :: s in live && s != but ==> End(r) <= s || s + live[s] <= r.start
    }

    /** Obtain a region of at least `minSize` bytes. */
    method Alloc(minSize: nat) returns (r: Option<Region>)
      requires Valid() && Aligned(p, minSize) && 0 < minSize
      modifies this`live, this`requests, this`granted
      ensures Valid() && requests == old(requests) + [NewRegion(minSize, r.Some?)]
      ensures r.None? ==> live == old(live) && granted == old(granted)
      ensures r.Some? ==>
                && minSize <= r.value.len && 0 < r.value.start && End(r.value) <= Top(p)
                && (forall s :: s in old(live) ==> Disjoint(r.value, Region(s, old(live)[s])))
                && r.value.start % Pow2(minAlignLog) == 0 && (WellAligned() ==> ChunksGranular(p, r.value.len))
                && granted == old(granted) + 1
                && r.value.start !in old(live) && live == old(live)[r.value.start := r.value.len]
    {
      hide Pow2, Aligned, G, Top, ChunksGranular, CutsGranules;
      var start: int, len: int := *, *;
      var t := Region(start, len);
      if minSize <= len && start % Pow2(minAlignLog) == 0 && (WellAligned() ==> CutsGranules(p, len)) && Offered(t, 0) {
        ChunksGranularIff(p, len);
        live, requests, granted := live[start := len], requests + [NewRegion(minSize, true)], granted + 1;
        return Some(t);
      }
      requests := requests + [NewRegion(minSize, false)];
      return None;
    }

    /** Grow a region in place to at least `minNewLen` bytes. */
    method ReallocInplaceGrow(r: Region, minNewLen: nat) returns (len: Option<nat>)
      requires Valid() && r.start in live && live[r.start] == r.len && r.len <= minNewLen
      modifies this`live, this`requests
      ensures Valid() && requests == old(requests) + [GrowRegion(minNewLen, len.Some?)]
      ensures len.None? ==> live == old(live)
      ensures len.Some? ==> minNewLen <= len.value && live == old(live)[r.start := len.value]
    {
      hide G, Top;
      var n: nat := *;
      if !supportsGrow || n < minNewLen || !Offered(Region(r.start, n), r.start) {
        requests := requests + [GrowRegion(minNewLen, false)];
        return None;
      }
      live, requests := live[r.start := n], requests + [GrowRegion(minNewLen, true)];
      return Some(n);
    }

    /** Give a region back. */
    method Dealloc(r: Region)
      requires Valid() && r.start in live && live[r.start] == r.len
      modifies this`live, this`freed
      ensures Valid() && live == old(live) - {r.start} && freed == old(freed) + [r]
    {
      live := live - {r.start};
      freed := freed + [r];
    }
  }

  /** The source has handed out exactly the regions of the chain. */
  ghost predicate Recorded(live: map<int, int>, chain: seq<Region>) {
    && (forall i :: 0 <= i < |chain| ==> chain[i].start in live && live[chain[i].start] == chain[i].len)
    && (forall s :: s in live ==> exists i :: 0 <= i < |chain| && chain[i].start == s)
  }

  /** Giving the last region back leaves those before it. */
  lemma RecordedLast(p: Params, live: map<int, int>, chain: seq<Region>, k: nat)
    requires ChainOk(p, chain) && k < |chain| && Recorded(live, chain[..k + 1])
    ensures chain[k].start in live && live[chain[k].start] == chain[k].len
    ensures Recorded(live - {chain[k].start}, chain[..k])
    ensures forall i :: 0 <= i <= k ==> 0 < chain[i].start
  {
    hide G, Top;
    var upper, lower, live' := chain[..k + 1], chain[..k], live - {chain[k].start};
    assert upper[k] == chain[k];
    forall i | 0 <= i < k
      ensures lower[i].start in live' && live'[lower[i].start] == lower[i].len
    {
      assert upper[i] == chain[i] && Disjoint(chain[i], chain[k]);
    }
    forall s | s in live'
      ensures exists i :: 0 <= i < |lower| && lower[i].start == s
    {
      var i :| 0 <= i < |upper| && upper[i].start == s;
      assert lower[i] == upper[i];
    }
  }

  lemma NothingRecorded(live: map<int, int>, chain: seq<Region>)
    requires Recorded(live, chain) && chain == []
    ensures live == map[]
  {
    assert forall s :: s !in live;
  }

  /** The regions from the most recent one to the oldest. */
  ghost function Reversed(chain: seq<Region>): (r: seq<Region>)
    ensures |r| == |chain|
  {
    seq(|chain|, i requires 0 <= i < |chain| => chain[|chain| - 1 - i])
  }

  lemma ReversedStep(chain: seq<Region>, k: nat, freed: seq<Region>)
    requires k < |chain|
    ensures freed + Reversed(chain[k..]) == freed + Reversed(chain[k + 1..]) + [chain[k]]
  {
    assert chain[k..] == [chain[k]] + chain[k + 1..];
  }

  lemma NothingReversed()
    ensures Reversed([]) == []
  {
  }

  /** What a footer says. */
  lemma ReadFooter(p: Params, alignLog: nat, chain: seq<Region>, m: Memory, k: nat)
    requires ChainOk(p, chain) && Linked(p, alignLog, chain, m) && k < |chain|
    ensures RegionOk(p, chain[k])
    ensures var c := Load(m, FooterOf(p, alignLog, chain[k]));
            if k == 0 then c.w0 == 0 else c.w0 != 0 && c == Cell(chain[k - 1].start, chain[k - 1].len)
  {
    hide FooterOf, Load, G, Top;
    assert FooterAt(p, alignLog, chain, m, k);
  }

  /** The most recent region with the length of what is pooled in it. */
  datatype Pool = Pool(allocStart: int, allocLen: int, poolLen: int)

  /** Some pool ends at `e`. */
  ghost predicate PoolEnd(pools: Pools, e: int) {
    exists q :: q in pools && pools[q] == e
  }

  /** The last region is pooled up to less than two granules from its end. */
  ghost predicate Grows(p: Params, pools: Pools, chain: seq<Region>, pool: Pool) {
    && chain != [] && chain[|chain| - 1] == Region(pool.allocStart, pool.allocLen)
    && 2 * G(p) <= pool.poolLen <= pool.allocLen < pool.poolLen + 2 * G(p)
    && PoolEnd(pools, pool.allocStart + pool.poolLen)
    && Clear(pools, pool.allocStart + pool.poolLen, pool.allocStart + pool.allocLen)
  }

  /** Every pool is in a region, and the footers chain the regions up. */
  ghost predicate Sound(p: Params, alignLog: nat, footers: bool, pools: Pools, m: Memory, chain: seq<Region>) {
    ChainOk(p, chain) && Housed(p, alignLog, pools, chain) && (footers ==> Linked(p, alignLog, chain, m))
  }

  /** The footer of the growable region leaves the sentinel's header alone and is inside the region. */
  lemma FooterBehindSentinel(p: Params, alignLog: nat, h: Heap, chain: seq<Region>, pool: Pool)
    requires Inv(p, h) && ChainOk(p, chain) && Grows(p, h.pools, chain, pool)
    ensures var r := chain[|chain| - 1];
            var cap := pool.allocStart + pool.poolLen - G(p);
            && cap in h.blocks && h.blocks[cap].kind.Sentinel?
            && cap + H(p) <= FooterOf(p, alignLog, r) && FooterOf(p, alignLog, r) + H(p) <= End(r)
  {
    hide FooterOf, Top, Inv, G, H, PoolEnd;
    EndOfPool(p, h, pool.allocStart + pool.poolLen);
    FooterPlace(p, alignLog, chain[|chain| - 1], pool.allocStart + pool.poolLen);
  }

  /** The last block before the end of a pool is its sentinel. */
  lemma EndOfPool(p: Params, h: Heap, e: int)
    requires Inv(p, h) && PoolEnd(h.pools, e)
    ensures EndsPool(p, h, e) && e - G(p) in h.blocks && h.blocks[e - G(p)].kind.Sentinel? && Aligned(p, e)
  {
    hide ListsOk, Apart, BlockOk, G, H, PoolsApart;
    var q :| q in h.pools && h.pools[q] == e;
    assert PoolOk(p, h.pools, h.blocks, q);
    LastBlock(p, h, q);
  }

  lemma {:induction false} LastBlock(p: Params, h: Heap, a: int)
    requires Inv(p, h) && a in h.blocks
    ensures h.blocks[a].pool in h.pools
    ensures var cap := h.pools[h.blocks[a].pool] - G(p);
            cap in h.blocks && h.blocks[cap].kind.Sentinel?
    decreases Top(p) - a
  {
    hide Inv, G;
    WalkStep(p, h, a);
    if h.blocks[a].kind.Sentinel? {
      SentinelSize(p, h, a);
    } else {
      LastBlock(p, h, a + h.blocks[a].size);
    }
  }

  lemma SentinelSize(p: Params, h: Heap, a: int)
    requires Inv(p, h) && a in h.blocks && h.blocks[a].kind.Sentinel?
    ensures h.blocks[a].size == G(p)
  {
    assert BlockOk(p, h.pools, h.blocks, a);
  }

  lemma SentinelEnds(p: Params, h: Heap, e: int)
    requires Inv(p, h) && EndsPool(p, h, e)
    ensures PoolEnd(h.pools, e)
  {
    hide ListsOk, Apart, PoolOk, PoolsApart, Aligned, H;
    assert BlockOk(p, h.pools, h.blocks, e - G(p));
    var q := h.blocks[e - G(p)].pool;
    assert q in h.pools && h.pools[q] == e;
  }

  /** Used blocks stay what and where they are. */
  ghost predicate UsedKept(bs: Tiling, bs': Tiling) {
    forall b :: IsUsed(bs, b) ==> b in bs' && bs'[b].kind == bs[b].kind && bs'[b].size == bs[b].size
  }

  lemma InsertKeeps(p: Params, h: Heap, start: int, len: int)
    requires Inv(p, h) && 0 < start && start + len <= Top(p) && Clear(h.pools, start, start + len)
    ensures var h' := InsertPtr(p, h, start, len);
            UsedKept(h.blocks, h'.blocks) && Live(h'.blocks) == Live(h.blocks)
  {
    hide Inv, Top, Aligned, ChunkedLength, InsertedLength, RoundUp, RoundDown, G, Live, InsertAligned, InsertPtr, Clear;
    InsertCases(p, h, start, len);
    GPositive(p);
    var pad := RoundUp(start, G(p)) - start;
    if len - pad >= 2 * G(p) {
      var n := RoundDown(len - pad, G(p));
      ClearPart(h.pools, start, start + len, start + pad, start + pad + n);
      InsertLive(p, h, start + pad, n);
      InsertKeepsBlocks(p, h, start + pad, n);
    }
  }

  lemma AppendKeeps(p: Params, h: Heap, start: int, len: int)
    requires Inv(p, h) && EndsPool(p, h, start) && 0 <= len < Top(p)
    requires start + len <= Top(p) && Clear(h.pools, start, start + len)
    ensures start - G(p) in h.blocks
    ensures var h' := Append(p, h, start, len);
            UsedKept(h.blocks, h'.blocks) && Live(h'.blocks) == Live(h.blocks)
  {
    hide Inv, EndsPool, GoodRegion, Clear, RoundDown, G, Top, Extend, InsertAligned, MaxPoolSize, Live;
    AppendPlan(p, h, start, len);
    var n := RoundDown(len, G(p));
    if MaxPoolSize(p).Some? {
      InsertLive(p, h, start, n);
      InsertKeepsBlocks(p, h, start, n);
    } else if n != 0 {
      ExtendLive(p, h, start, n);
      ExtendKeepsUsed(p, h, start, n);
    }
  }

  lemma ExtendKeepsUsed(p: Params, h: Heap, start: int, n: int)
    requires Inv(p, h) && EndsPool(p, h, start) && GoodRegion(p, h, start, n) && 0 < n
    ensures start - G(p) in h.blocks && UsedKept(h.blocks, Extend(p, h, start, n).blocks)
  {
    hide Inv, G, H, Aligned, Link, Unlink, GoodRegion;
    ExtendFromIs(p, h, start, n);
    NotAtLast(p, h, start, n);
  }

  lemma NotAtLast(p: Params, h: Heap, start: int, n: int)
    requires Inv(p, h) && EndsPool(p, h, start) && GoodRegion(p, h, start, n) && 0 < n
    ensures start + n - G(p) !in h.blocks || start + n - G(p) < start
    ensures !IsUsed(h.blocks, start - G(p))
  {
    hide ListsOk, Aligned, Apart, BlockOk, H;
    GPositive(p);
    OldBlock(p, h, start, n, start + n - G(p));
  }

  /** No live allocation is lost, moved, resized or overwritten. */
  ghost predicate Undisturbed(h: Heap, m: Memory, h': Heap, m': Memory) {
    && UsedKept(h.blocks, h'.blocks) && Live(h'.blocks) == Live(h.blocks)
    && forall x {:trigger PayloadKept(h.blocks, m, m', x)} :: PayloadKept(h.blocks, m, m', x)
  }

  // ----- growing the last region -----

  lemma GrownRecorded(p: Params, live: map<int, int>, chain: seq<Region>, len: int)
    requires ChainOk(p, chain) && chain != [] && Recorded(live, chain)
    ensures Recorded(live[chain[|chain| - 1].start := len], Longer(chain, len))
  {
    hide G, Top;
    var last, chain' := |chain| - 1, Longer(chain, len);
    var live' := live[chain[last].start := len];
    forall i | 0 <= i < |chain'|
      ensures chain'[i].start in live' && live'[chain'[i].start] == chain'[i].len
    {
      assert i != last ==> Disjoint(chain[i], chain[last]) && chain'[i] == chain[i];
    }
    forall s | s in live'
      ensures exists i :: 0 <= i < |chain'| && chain'[i].start == s
    {
      assert s in live;
      var i :| 0 <= i < |chain| && chain[i].start == s;
      assert chain'[i].start == s;
    }
  }

  /** The regions of a source are apart. */
  lemma SourceChain(src: Source, chain: seq<Region>, len: int)
    requires src.Valid() && ChainOk(src.p, chain) && chain != [] && chain[|chain| - 1].len <= len
    requires Recorded(src.live, Longer(chain, len))
    ensures ChainOk(src.p, Longer(chain, len))
  {
    hide G, Top;
    var last := |chain| - 1;
    assert Longer(chain, len)[last] == Region(chain[last].start, len);
    forall i | 0 <= i < last
      ensures Disjoint(chain[i], Region(chain[last].start, len))
    {
      assert Longer(chain, len)[i] == chain[i];
      assert Disjoint(chain[i], chain[last]);
    }
    ChainGrows(src.p, chain, len);
  }

  /** The bytes `[start, start + len)` can be appended to the pool that ends at `start`. */
  ghost predicate CanAppend(p: Params, h: Heap, start: int, len: int) {
    && Inv(p, h) && EndsPool(p, h, start) && start - G(p) in h.blocks && 2 * G(p) <= len < Top(p)
    && start + len <= Top(p) && Clear(h.pools, start, start + len)
  }

  /** No footer is in `[s, e)`. */
  ghost predicate NoFooterIn(p: Params, alignLog: nat, chain: seq<Region>, s: int, e: int) {
    ChainOk(p, chain) && forall i :: 0 <= i < |chain| ==> !(s <= FooterOf(p, alignLog, chain[i]) < e)
  }

  ghost predicate HousedAndGrowing(p: Params, alignLog: nat, pools: Pools, chain: seq<Region>, pool: Pool) {
    ChainOk(p, chain) && Housed(p, alignLog, pools, chain) && Grows(p, pools, chain, pool)
  }

  /** The bytes `[start, start + len)` were appended to the pool that ends at `start`. */
  ghost predicate AppendedTo(p: Params, h: Heap, h': Heap, start: int, len: int) {
    start - G(p) in h.blocks && h' == Append(p, h, start, len)
  }

  /** Once the last region has `len` bytes, appending them fits the regions and meets no footer. */
  ghost predicate FitsAppend(p: Params, alignLog: nat, h: Heap, chain: seq<Region>, pool: Pool, len: int) {
    var s0, n := pool.allocStart + pool.poolLen, AppendedLength(p, len - pool.poolLen);
    && s0 - G(p) in h.blocks
    && HousedAndGrowing(p, alignLog, Append(p, h, s0, len - pool.poolLen).pools, chain,
                        Pool(pool.allocStart, len, pool.poolLen + n))
    && NoFooterIn(p, alignLog, chain, s0 - H(p), s0 + n - H(p))
  }

  /** The last region, grown to `len` bytes, can be pooled further. */
  lemma GrownReady(p: Params, alignLog: nat, h: Heap, chain: seq<Region>, pool: Pool, len: int)
    requires Inv(p, h) && HousedAndGrowing(p, alignLog, h.pools, chain, pool)
    requires ChainOk(p, Longer(chain, len)) && pool.allocLen <= len && 2 * G(p) <= len - pool.poolLen
    ensures CanAppend(p, h, pool.allocStart + pool.poolLen, len - pool.poolLen)
    ensures Housed(p, alignLog, h.pools, Longer(chain, len))
  {
    hide Inv, Housed, EndsPool, Top, PoolEnd, Clear, G;
    var s0 := pool.allocStart + pool.poolLen;
    EndOfPool(p, h, s0);
    GrownClear(p, alignLog, h, chain, len, s0);
    LongerRegions(p, chain, len);
    StillHoused(p, alignLog, h.pools, chain, len);
  }

  /** The pools after the last region has grown and its new bytes have been appended. */
  lemma GrownSound(p: Params, alignLog: nat, h: Heap, chain: seq<Region>, pool: Pool, len: int)
    requires ChainOk(p, chain) && Grows(p, h.pools, chain, pool) && pool.allocLen <= len
    requires ChainOk(p, Longer(chain, len)) && Housed(p, alignLog, h.pools, Longer(chain, len))
    requires CanAppend(p, h, pool.allocStart + pool.poolLen, len - pool.poolLen)
    ensures FitsAppend(p, alignLog, h, Longer(chain, len), pool, len)
  {
    hide Inv, ChainOk, Housed, Append, AppendedLength, EndsPool, Top, PoolEnd, Clear, Extended, FooterOf, G, Aligned;
    var s0, last, chain' := pool.allocStart + pool.poolLen, |chain| - 1, Longer(chain, len);
    LongerRegions(p, chain, len);
    AppendPools(p, h, s0, len - pool.poolLen);
    var h', n := Append(p, h, s0, len - pool.poolLen), AppendedLength(p, len - pool.poolLen);
    GrownHoused(p, alignLog, h, h', chain', s0, s0 + n);
    SentinelEnds(p, h', s0 + n);
    ExtendedClear(h.pools, h'.pools, s0, s0 + n, s0 + (len - pool.poolLen));
    GrownFooters(p, alignLog, chain', s0, s0 + n);
  }

  /** The footers are clear of what is written between two pool ends of the last region. */
  lemma GrownFooters(p: Params, alignLog: nat, chain: seq<Region>, s0: int, e: int)
    requires ChainOk(p, chain) && chain != [] && Aligned(p, e)
    requires chain[|chain| - 1].start + H(p) <= s0 && e <= End(chain[|chain| - 1])
    ensures NoFooterIn(p, alignLog, chain, s0 - H(p), e - H(p))
  {
    hide FooterOf, Top, H, G, Aligned;
    var last := |chain| - 1;
    FooterPlace(p, alignLog, chain[last], e);
    forall i | 0 <= i < |chain|
      ensures !(s0 - H(p) <= FooterOf(p, alignLog, chain[i]) < e - H(p))
    {
      if i != last {
        FootersApart(p, alignLog, chain[i], chain[last]);
      }
    }
  }

  lemma ExtendedClear(pools: Pools, pools': Pools, s0: int, e: int, end: int)
    requires Extended(pools, pools', s0, e) && Clear(pools, s0, end) && s0 <= e <= end
    ensures Clear(pools', e, end)
  {
  }

  // ----- adding a region -----

  lemma NewRecorded(live: map<int, int>, chain: seq<Region>, r: Region)
    requires Recorded(live, chain) && r.start !in live
    ensures Recorded(live[r.start := r.len], chain + [r])
  {
    var live', chain' := live[r.start := r.len], chain + [r];
    forall i | 0 <= i < |chain'|
      ensures chain'[i].start in live' && live'[chain'[i].start] == chain'[i].len
    {
      assert i < |chain| ==> chain'[i] == chain[i];
    }
    forall s | s in live'
      ensures exists i :: 0 <= i < |chain'| && chain'[i].start == s
    {
      if s in live {
        var i :| 0 <= i < |chain| && chain[i].start == s;
        assert chain'[i].start == s;
      } else {
        assert chain'[|chain|].start == s;
      }
    }
  }

  lemma AddedClear(pools: Pools, pools': Pools, s0: int, e: int, end: int)
    requires Added(pools, pools', s0, e) && Clear(pools, s0, end) && s0 <= e <= end
    ensures Clear(pools', e, end)
  {
  }

  /** The pools after a new region has been inserted. */
  lemma AddedSound(p: Params, alignLog: nat, h: Heap, chain: seq<Region>, r: Region)
    requires Inv(p, h) && ChainOk(p, chain) && Housed(p, alignLog, h.pools, chain) && RegionOk(p, r)
    requires forall i :: 0 <= i < |chain| ==> Disjoint(chain[i], r)
    requires 3 * G(p) <= r.len || Aligned(p, r.start)
    ensures ChainOk(p, chain + [r]) && Clear(h.pools, r.start, End(r))
    ensures var h', n := InsertPtr(p, h, r.start, r.len), InsertedLength(p, r.start, r.len);
            && Inv(p, h') && Housed(p, alignLog, h'.pools, chain + [r]) && 0 < n <= r.len
            && Grows(p, h'.pools, chain + [r], Pool(r.start, r.len, n))
            && (forall i :: 0 <= i < |chain| ==>
                  !(r.start <= FooterOf(p, alignLog, chain[i]) < r.start + n - H(p)))
  {
    hide Inv, ChainOk, Housed, FooterOf, InsertPtr, InsertedLength, EndsPool, Top, PoolEnd, Clear, Added, G, Aligned;
    ChainExtends(p, chain, r);
    ChainRegions(p, chain);
    FreshClear(p, alignLog, h.pools, chain, r);
    InsertTakes(p, r.start, r.len);
    InsertPools(p, h, r.start, r.len);
    var h', n := InsertPtr(p, h, r.start, r.len), InsertedLength(p, r.start, r.len);
    NewHoused(p, alignLog, h, h', chain, r, r.start, r.start + n);
    SentinelEnds(p, h', r.start + n);
    AddedClear(h.pools, h'.pools, r.start, r.start + n, End(r));
    forall i | 0 <= i < |chain|
      ensures !(r.start <= FooterOf(p, alignLog, chain[i]) < r.start + n - H(p))
    {
      FootersApart(p, alignLog, chain[i], r);
    }
  }

  /** The allocation succeeds. */
  ghost predicate Suffices(p: Params, h: Heap, layout: Layout) {
    Inv(p, h) && Operations.Allocate(p, h, layout).Done?
  }

  /** Appending enough bytes makes the allocation succeed and keeps the allocations. */
  lemma AppendMakesRoom(p: Params, h: Heap, start: int, len: int, layout: Layout)
    requires start - G(p) in h.blocks && PoolSizeToContainAllocation(p, layout).Some?
    requires CanAppend(p, h, start, len) && PoolSizeToContainAllocation(p, layout).value <= len
    ensures var h' := Append(p, h, start, len);
            Suffices(p, h', layout) && UsedKept(h.blocks, h'.blocks) && Live(h'.blocks) == Live(h.blocks)
  {
    hide Inv, EndsPool, Clear, Append, PoolSizeToContainAllocation, Operations.Allocate, G, Top, UsedKept, Live;
    AppendSuffices(p, h, layout, start, len);
    AppendKeeps(p, h, start, len);
  }

  lemma LongerRegions(p: Params, chain: seq<Region>, len: int)
    requires ChainOk(p, chain) && chain != [] && ChainOk(p, Longer(chain, len))
    ensures RegionOk(p, chain[|chain| - 1]) && RegionOk(p, Longer(chain, len)[|chain| - 1])
    ensures Longer(chain, len)[|chain| - 1] == Region(chain[|chain| - 1].start, len)
  {
  }

  lemma UnusedIs(p: Params, pools: Pools, a: int)
    requires Unused(p, pools, a)
    ensures forall s :: s in pools ==> !(s <= a < pools[s] - H(p))
  {
  }

  lemma AllKeptTwice(bs: Tiling, m: Memory, m1: Memory, m2: Memory)
    requires forall x {:trigger PayloadKept(bs, m, m1, x)} :: PayloadKept(bs, m, m1, x)
    requires forall x {:trigger PayloadKept(bs, m1, m2, x)} :: PayloadKept(bs, m1, m2, x)
    ensures forall x {:trigger PayloadKept(bs, m, m2, x)} :: PayloadKept(bs, m, m2, x)
  {
    hide PayloadKept;
    forall x
      ensures PayloadKept(bs, m, m2, x)
    {
      KeptTwice(bs, bs, m, m1, m2, x);
    }
  }

  lemma AllKeptOn(bs: Tiling, bs1: Tiling, m: Memory, m1: Memory, m2: Memory)
    requires forall x {:trigger PayloadKept(bs, m, m1, x)} :: PayloadKept(bs, m, m1, x)
    requires forall x {:trigger PayloadKept(bs1, m1, m2, x)} :: PayloadKept(bs1, m1, m2, x)
    requires UsedKept(bs, bs1)
    ensures forall x {:trigger PayloadKept(bs, m, m2, x)} :: PayloadKept(bs, m, m2, x)
  {
    hide PayloadKept;
    forall x
      ensures PayloadKept(bs, m, m2, x)
    {
      KeptTwice(bs, bs1, m, m1, m2, x);
    }
  }

  /** A well-aligned region that is cut into whole granules needs no rounding. */
  lemma AlignedInsert(p: Params, h: Heap, start: int, len: int)
    requires PoolRegion(p, h, start, len) && 2 * G(p) <= len
    ensures InsertPtr(p, h, start, len) == InsertAligned(p, h, start, len)
    ensures InsertedLength(p, start, len) == ChunkedLength(p, len)
  {
    hide Aligned, RoundUp, RoundDown, InsertAligned, ChunkedLength, G, ChunksGranular, Clear;
    StartKept(p, start);
    RoundedRegion(p, h, start, len);
  }

  /** The new region is large enough, whether or not the source aligns it. */
  lemma NewRegionSuffices(p: Params, h: Heap, layout: Layout, r: Region, aligned: bool)
    requires Inv(p, h) && RegionOk(p, r) && Clear(h.pools, r.start, End(r))
    requires PoolSizeToContainAllocation(p, layout).Some?
    requires PoolSizeToContainAllocation(p, layout).value + (if aligned then 0 else G(p)) <= r.len
    requires aligned ==> Aligned(p, r.start)
    ensures Inv(p, InsertPtr(p, h, r.start, r.len))
    ensures Operations.Allocate(p, InsertPtr(p, h, r.start, r.len), layout).Done?
  {
    hide Inv, Clear, PoolSizeToContainAllocation, Operations.Allocate, InsertPtr, G, Aligned, Top;
    if aligned {
      AlignedSuffices(p, h, layout, r.start, r.len);
    } else {
      InsertPtrSuffices(p, h, layout, r.start, r.len);
    }
  }

  /** Where reallocation fails, so does allocation. */
  lemma FallbackFails(p: Params, h: Heap, b: int, layout: Layout)
    requires Inv(p, h) && IsUsed(h.blocks, b) && Operations.Reallocate(p, h, b, layout).Fail?
    ensures Operations.Allocate(p, h, layout).Fail?
  {
    hide Inv, ReallocateInplace, Operations.Allocate, Operations.Deallocate;
  }

  /** A new region of just enough bytes was requested, unless their number does not fit a word, with result `ok`. */
  ghost predicate AskedForRegion(p: Params, v: nat, src: Source, before: seq<Request>, after: seq<Request>, ok: bool) {
    var n := if src.WellAligned() then v else v + G(p);
    if n >= Top(p) then !ok && after == before else after == before + [NewRegion(n, ok)]
  }

  /**
   What is requested of the source to make an allocation possible, with result `ok`: nothing if no amount of
   memory would do; first to grow the last region by just enough bytes, if there is one and the length fits a
   word; then, unless growing was granted or the source is contiguous, a new region of just enough bytes.
   */
  ghost predicate Asked(p: Params, layout: Layout, src: Source, pool: Option<Pool>, before: seq<Request>,
                        after: seq<Request>, ok: bool) {
    match PoolSizeToContainAllocation(p, layout)
    case None => !ok && after == before
    case Some(v) =>
      if pool.None? then AskedForRegion(p, v, src, before, after, ok)
      else
        var n := pool.value.poolLen + v;
        if n < 0 || n >= Top(p) then !ok && after == before
        else
          var refused := before + [GrowRegion(n, false)];
          || (ok && after == before + [GrowRegion(n, true)])
          || (if src.contiguousGrowable then !ok && after == refused
              else AskedForRegion(p, v, src, refused, after, ok))
  }

  /** The granted request was one to grow the last region. */
  ghost predicate LastGrown(requests: seq<Request>) {
    requests != [] && requests[|requests| - 1].GrowRegion?
  }

  /**
   The heap after memory was obtained, the last region of `chain` being the one that is new or has grown: all of a
   new region is inserted; all that a grown region has beyond its pool is appended to that pool.
   */
  ghost function EnlargedHeap(p: Params, h: Heap, pool: Option<Pool>, chain: seq<Region>, grown: bool): Heap
    requires chain != []
  {
    var r := chain[|chain| - 1];
    if !grown then InsertPtr(p, h, r.start, r.len)
    else if pool.Some? && pool.value.allocStart + pool.value.poolLen - G(p) in h.blocks then
      var s0 := pool.value.allocStart + pool.value.poolLen;
      Append(p, h, s0, End(r) - s0)
    else h
  }

  /** A region was added to the chain, or its last one has grown, and the heap is that of `EnlargedHeap`. */
  ghost predicate Enlarged(p: Params, h: Heap, h': Heap, pool: Option<Pool>, chain: seq<Region>, chain': seq<Region>,
                           grown: bool) {
    && chain' != [] && h' == EnlargedHeap(p, h, pool, chain', grown)
    && var r := chain'[|chain'| - 1];
    if grown then pool.Some? && chain != [] && chain' == Longer(chain, r.len) else chain' == chain + [r]
  }

  /** An allocation was served from the heap with the memory that was obtained. */
  ghost predicate Served(p: Params, h: Heap, pool: Option<Pool>, chain: seq<Region>, chain': seq<Region>, grown: bool,
                         layout: Layout, h': Heap, ptr: int) {
    && chain' != []
    && var h1 := EnlargedHeap(p, h, pool, chain', grown);
    && Enlarged(p, h, h1, pool, chain, chain', grown)
    && Inv(p, h1) && Operations.Allocate(p, h1, layout) == Done(h', ptr)
  }

  lemma ServedFrom(p: Params, h: Heap, h1: Heap, pool: Option<Pool>, chain: seq<Region>, chain': seq<Region>,
                   grown: bool, layout: Layout, h': Heap, ptr: int)
    requires Enlarged(p, h, h1, pool, chain, chain', grown)
    requires Inv(p, h1) && Operations.Allocate(p, h1, layout) == Done(h', ptr)
    ensures Served(p, h, pool, chain, chain', grown, layout, h', ptr)
  {
    hide Inv, EnlargedHeap, Operations.Allocate;
  }

  lemma GrownIsEnlarged(p: Params, h: Heap, h': Heap, pool: Pool, chain: seq<Region>, len: int)
    requires chain != [] && chain[|chain| - 1].start == pool.allocStart
    requires AppendedTo(p, h, h', pool.allocStart + pool.poolLen, len - pool.poolLen)
    ensures Enlarged(p, h, h', Some(pool), chain, Longer(chain, len), true)
  {
    hide Append, G;
  }

  /** The block `b` was freed after its replacement had been allocated. */
  ghost predicate Replaced(p: Params, h: Heap, b: int, h': Heap) {
    Inv(p, h) && IsUsed(h.blocks, b) && h' == Operations.Deallocate(p, h, b)
  }

  lemma RecordedAt(p: Params, live: map<int, int>, chain: seq<Region>)
    requires Recorded(live, chain) && chain != []
    ensures chain[|chain| - 1].start in live && live[chain[|chain| - 1].start] == chain[|chain| - 1].len
  {
  }

  lemma FreshDisjoint(live: map<int, int>, chain: seq<Region>, r: Region)
    requires Recorded(live, chain) && forall s :: s in live ==> Disjoint(r, Region(s, live[s]))
    ensures forall i :: 0 <= i < |chain| ==> Disjoint(chain[i], r)
  {
  }

  /** One allocation is new, in a block that was not in use, and the others are undisturbed. */
  ghost predicate Gained(h: Heap, m: Memory, h': Heap, m': Memory, b: int, ptr: int, layout: Layout) {
    && !IsUsed(h.blocks, b) && Live(h'.blocks) == Live(h.blocks)[b := Used(ptr, layout)]
    && UsedKept(h.blocks, h'.blocks)
    && forall x {:trigger PayloadKept(h.blocks, m, m', x)} :: PayloadKept(h.blocks, m, m', x)
  }

  lemma AllocateGains(p: Params, h: Heap, layout: Layout) returns (b: int)
    requires Inv(p, h) && Operations.Allocate(p, h, layout).Done?
    ensures var r := Operations.Allocate(p, h, layout);
            && !IsUsed(h.blocks, b) && Live(r.heap.blocks) == Live(h.blocks)[b := Used(r.ptr, layout)]
            && UsedKept(h.blocks, r.heap.blocks) && r.heap.pools == h.pools
  {
    hide Inv, Operations.Allocate, Live;
    b := AllocateLive(p, h, layout);
    forall x | IsUsed(h.blocks, x)
      ensures var bs := Operations.Allocate(p, h, layout).heap.blocks;
              x in bs && bs[x].kind == h.blocks[x].kind && bs[x].size == h.blocks[x].size
    {
      AllocateKeepsUsed(p, h, layout, x);
    }
  }

  lemma GainedLater(h: Heap, m: Memory, h1: Heap, m1: Memory, h2: Heap, m2: Memory, b: int, ptr: int, layout: Layout)
    requires Undisturbed(h, m, h1, m1) && Gained(h1, m1, h2, m2, b, ptr, layout)
    ensures Gained(h, m, h2, m2, b, ptr, layout)
  {
    hide PayloadKept, Live;
    AllKeptOn(h.blocks, h1.blocks, m, m1, m2);
  }

  lemma GainedFacts(p: Params, h: Heap, m: Memory, h1: Heap, m1: Memory, c: int, q: int, layout: Layout, b: int)
    requires Gained(h, m, h1, m1, c, q, layout) && IsUsed(h.blocks, b) && Inv(p, h1)
    ensures b != c && IsUsed(h1.blocks, b)
    ensures h1.blocks[b].kind == h.blocks[b].kind && h1.blocks[b].size == h.blocks[b].size
    ensures IsUsed(h1.blocks, c) && h1.blocks[c].kind == Used(q, layout) && q + layout.size <= c + h1.blocks[c].size
    ensures PayloadKept(h.blocks, m, m1, b)
    ensures Live(h.blocks)[c := Used(q, layout)] - {b} == (Live(h.blocks) - {b})[c := Used(q, layout)]
  {
    hide Inv, PayloadKept, Live;
    LiveIsUsed(h1.blocks, c);
    PayloadBehind(p, h1, c);
  }

  lemma GainedAway(h: Heap, m: Memory, h1: Heap, m1: Memory, m2: Memory, m3: Memory, c: int, q: int, layout: Layout,
                   b: int)
    requires Gained(h, m, h1, m1, c, q, layout) && b != c
    requires forall y {:trigger PayloadKept(h1.blocks, m1, m2, y)} :: y != c ==> PayloadKept(h1.blocks, m1, m2, y)
    requires forall y {:trigger PayloadKept(h1.blocks, m2, m3, y)} :: y != b ==> PayloadKept(h1.blocks, m2, m3, y)
    ensures forall y {:trigger PayloadKept(h.blocks, m, m3, y)} :: y != b ==> PayloadKept(h.blocks, m, m3, y)
  {
    hide PayloadKept, Live;
    forall y | y != b
      ensures PayloadKept(h.blocks, m, m3, y)
    {
      if y == c {
        NoPayload(h.blocks, m, m3, y);
      } else {
        KeptTwice(h.blocks, h1.blocks, m, m1, m2, y);
        KeptTwice(h.blocks, h1.blocks, m, m2, m3, y);
      }
    }
  }

  class FlexTlsf {
    const tlsf: Tlsf
    const source: Source
    /** The most recently obtained region. */
    var growablePool: Option<Pool>
    /** All regions that were obtained, the most recent one last. */
    ghost var chain: seq<Region>

    ghost predicate Valid()
      reads this, tlsf, tlsf.slBitmap, tlsf.firstFree, source
    {
      && tlsf.Valid() && source.Valid() && source.p == tlsf.p && Recorded(source.live, chain)
      && source.granted == |chain|
      && Sound(tlsf.p, source.minAlignLog, source.supportsDealloc, tlsf.h.pools, tlsf.mem, chain)
      && (growablePool.Some? <==> source.UseGrowablePool() && chain != [])
      && (growablePool.Some? ==> Grows(tlsf.p, tlsf.h.pools, chain, growablePool.value))
    }

    constructor (params: Params, memory: Memory, src: Source)
      requires src.Valid() && src.p == params && src.live == map[] && src.granted == 0
      ensures Valid() && source == src && chain == [] && tlsf.p == params && tlsf.h.blocks == map[]
      ensures fresh(tlsf) && fresh(tlsf.slBitmap) && fresh(tlsf.firstFree)
    {
      tlsf := new Tlsf(params, memory);
      source, growablePool, chain := src, None, [];
    }

    /** What stays true when the pools do and nothing outside them changes. */
    twostate lemma StaysSound()
      requires old(Valid()) && tlsf.Valid() && source.Valid()
      requires unchanged(this) && unchanged(source) && tlsf.h.pools == old(tlsf.h.pools)
      requires OutsideKept(tlsf.p, old(tlsf.h.pools), old(tlsf.mem), tlsf.mem)
      ensures Valid()
    {
      hide Tlsf.Valid, Recorded, ChainOk, Housed, Linked, Grows, OutsideKept;
      if source.supportsDealloc {
        LinkedKept(tlsf.p, source.minAlignLog, tlsf.h.pools, chain, old(tlsf.mem), tlsf.mem);
      }
    }

    /** Append the bytes by which the source has grown the last region. */
    method GrowPool(pool: Pool, len: int, layout: Layout)
      requires tlsf.Valid() && source.Valid() && source.p == tlsf.p && growablePool == Some(pool)
      requires source.UseGrowablePool()
      requires Sound(tlsf.p, source.minAlignLog, source.supportsDealloc, tlsf.h.pools, tlsf.mem, chain)
      requires Grows(tlsf.p, tlsf.h.pools, chain, pool) && pool.allocLen <= len && source.granted == |chain|
      requires Recorded(source.live, Longer(chain, len))
      requires PoolSizeToContainAllocation(tlsf.p, layout).Some?
      requires pool.poolLen + PoolSizeToContainAllocation(tlsf.p, layout).value <= len
      modifies this, tlsf, tlsf.slBitmap, tlsf.firstFree
      ensures Valid() && chain == Longer(old(chain), len)
      ensures AppendedTo(tlsf.p, old(tlsf.h), tlsf.h, pool.allocStart + pool.poolLen, len - pool.poolLen)
      ensures Suffices(tlsf.p, tlsf.h, layout)
      ensures Undisturbed(old(tlsf.h), old(tlsf.mem), tlsf.h, tlsf.mem)
    {
      hide Tlsf.Valid, Source.Valid, Recorded, ChainOk, Housed, Linked, Inv, EndsPool, Clear, PoolEnd, FooterOf, Load,
        Store, Append, AppendedLength, PayloadKept, OutsideKeptBut, PoolSizeToContainAllocation, Operations.Allocate, H,
        G, Top, UsedKept, Live, Unused, FitsAppend, AppendedTo;
      ghost var h0, m0, al := tlsf.h, tlsf.mem, source.minAlignLog;
      TlsfInv();
      SourceChain(source, chain, len);
      PoolSizeOk(tlsf.p, layout);
      GrownReady(tlsf.p, al, h0, chain, pool, len);
      GrownSound(tlsf.p, al, h0, chain, pool, len);
      if source.supportsDealloc {
        MoveFooter(pool, len);
      } else {
        NothingChanged(tlsf.p, h0.pools, h0.blocks, m0);
      }
      ghost var m1 := tlsf.mem;
      AppendGrown(pool, len, layout);
      AllKeptTwice(h0.blocks, m0, m1, tlsf.mem);
    }

    /** Make a pool of the new bytes of the last region, whose footer is where it belongs by now. */
    method AppendGrown(pool: Pool, len: int, layout: Layout)
      requires tlsf.Valid() && source.Valid() && source.p == tlsf.p && source.UseGrowablePool() && chain != []
      requires CanAppend(tlsf.p, tlsf.h, pool.allocStart + pool.poolLen, len - pool.poolLen)
      requires source.granted == |chain|
      requires ChainOk(tlsf.p, Longer(chain, len)) && Recorded(source.live, Longer(chain, len))
      requires Sound(tlsf.p, source.minAlignLog, source.supportsDealloc, tlsf.h.pools, tlsf.mem, Longer(chain, len))
      requires FitsAppend(tlsf.p, source.minAlignLog, tlsf.h, Longer(chain, len), pool, len)
      requires PoolSizeToContainAllocation(tlsf.p, layout).Some?
      requires PoolSizeToContainAllocation(tlsf.p, layout).value <= len - pool.poolLen
      modifies this, tlsf, tlsf.slBitmap, tlsf.firstFree
      ensures Valid() && chain == Longer(old(chain), len)
      ensures AppendedTo(tlsf.p, old(tlsf.h), tlsf.h, pool.allocStart + pool.poolLen, len - pool.poolLen)
      ensures Suffices(tlsf.p, tlsf.h, layout)
      ensures Undisturbed(old(tlsf.h), old(tlsf.mem), tlsf.h, tlsf.mem)
    {
      hide Tlsf.Valid, Source.Valid, Recorded, ChainOk, Housed, Linked, Inv, EndsPool, Clear, PoolEnd, FooterOf, Load,
        Append, AppendedLength, PayloadKept, OutsideKeptBut, PoolSizeToContainAllocation, Operations.Allocate, H, G,
        Top, UsedKept, Live, Longer, Grows;
      ghost var h0, m0, s0 := tlsf.h, tlsf.mem, pool.allocStart + pool.poolLen;
      AppendMakesRoom(tlsf.p, h0, s0, len - pool.poolLen, layout);
      chain := Longer(chain, len);
      var n := tlsf.AppendFreeBlockPtr(pool.allocStart + pool.poolLen, len - pool.poolLen);
      growablePool := Some(Pool(pool.allocStart, len, pool.poolLen + n));
      if source.supportsDealloc {
        LinkedKeptBut(tlsf.p, source.minAlignLog, h0.pools, chain, s0 - H(tlsf.p), s0 + n - H(tlsf.p), m0, tlsf.mem);
      }
    }

    /** Copy the footer of the last region to where it belongs when the region has `len` bytes. */
    method MoveFooter(pool: Pool, len: int)
      requires tlsf.Valid() && ChainOk(tlsf.p, chain) && chain != [] && ChainOk(tlsf.p, Longer(chain, len))
      requires chain[|chain| - 1] == Region(pool.allocStart, pool.allocLen)
      requires Housed(tlsf.p, source.minAlignLog, tlsf.h.pools, Longer(chain, len))
      requires Linked(tlsf.p, source.minAlignLog, chain, tlsf.mem)
      modifies tlsf`mem
      ensures tlsf.Valid() && Linked(tlsf.p, source.minAlignLog, Longer(chain, len), tlsf.mem)
      ensures forall x {:trigger PayloadKept(tlsf.h.blocks, old(tlsf.mem), tlsf.mem, x)} ::
                PayloadKept(tlsf.h.blocks, old(tlsf.mem), tlsf.mem, x)
    {
      hide Tlsf.Valid, ChainOk, Housed, Linked, FooterOf, Load, Store, PayloadKept, H, Unused, Longer, RegionOk;
      ghost var al := source.minAlignLog;
      LongerRegions(tlsf.p, chain, len);
      LinkedLonger(tlsf.p, al, chain, len, tlsf.mem);
      FooterUnused(tlsf.p, al, tlsf.h.pools, Longer(chain, len), |chain| - 1);
      UnusedIs(tlsf.p, tlsf.h.pools, FooterOf(tlsf.p, al, Region(pool.allocStart, len)));
      var footer := Load(tlsf.mem, FooterOf(tlsf.p, source.minAlignLog, Region(pool.allocStart, pool.allocLen)));
      tlsf.WriteUnused(FooterOf(tlsf.p, source.minAlignLog, Region(pool.allocStart, len)), footer);
    }

    /** Create pools in a new region and link its footer to the region before. */
    method AddRegion(r: Region, layout: Layout)
      requires tlsf.Valid() && source.Valid() && source.p == tlsf.p
      requires Sound(tlsf.p, source.minAlignLog, source.supportsDealloc, tlsf.h.pools, tlsf.mem, chain)
      requires growablePool.Some? <==> source.UseGrowablePool() && chain != []
      requires growablePool.Some? ==> Grows(tlsf.p, tlsf.h.pools, chain, growablePool.value)
      requires RegionOk(tlsf.p, r) && (forall i :: 0 <= i < |chain| ==> Disjoint(chain[i], r))
      requires Recorded(source.live, chain + [r]) && source.granted == |chain| + 1
      requires r.start % Pow2(source.minAlignLog) == 0 && (source.WellAligned() ==> ChunksGranular(tlsf.p, r.len))
      requires PoolSizeToContainAllocation(tlsf.p, layout).Some?
      requires PoolSizeToContainAllocation(tlsf.p, layout).value +
               (if source.WellAligned() then 0 else G(tlsf.p)) <= r.len
      modifies this, tlsf, tlsf.slBitmap, tlsf.firstFree
      ensures Valid() && chain == old(chain) + [r]
      ensures tlsf.h == InsertPtr(tlsf.p, old(tlsf.h), r.start, r.len)
      ensures Suffices(tlsf.p, tlsf.h, layout)
      ensures Undisturbed(old(tlsf.h), old(tlsf.mem), tlsf.h, tlsf.mem)
    {
      hide Tlsf.Valid, Source.Valid, Recorded, ChainOk, Housed, Linked, Inv, Clear, PoolEnd, FooterOf, Load, Store,
        InsertPtr, InsertedLength, InsertAligned, ChunkedLength, PayloadKept, OutsideKeptBut,
        PoolSizeToContainAllocation, Operations.Allocate, H, G, Top, UsedKept, Live, Unused, Aligned, Pow2,
        ChunksGranular;
      ghost var h0, m0, al := tlsf.h, tlsf.mem, source.minAlignLog;
      TlsfInv();
      PoolSizeOk(tlsf.p, layout);
      if source.WellAligned() {
        MultipleAligned(tlsf.p, r.start, source.minAlignLog);
      }
      AddedSound(tlsf.p, al, h0, chain, r);
      NewRegionSuffices(tlsf.p, h0, layout, r, source.WellAligned());
      InsertKeeps(tlsf.p, h0, r.start, r.len);
      var n := InsertRegion(r);
      ghost var m1 := tlsf.mem;
      if source.supportsDealloc {
        LinkedKeptBut(tlsf.p, al, h0.pools, chain, r.start, r.start + n - H(tlsf.p), m0, m1);
        WriteFooter(r);
      } else {
        NothingChanged(tlsf.p, tlsf.h.pools, tlsf.h.blocks, m1);
      }
      if source.UseGrowablePool() {
        growablePool := Some(Pool(r.start, r.len, n));
      }
      chain := chain + [r];
      AllKeptOn(h0.blocks, tlsf.h.blocks, m0, m1, tlsf.mem);
    }

    /** Create pools in a new region, by the way that fits the alignment of the source. */
    method InsertRegion(r: Region) returns (n: int)
      requires tlsf.Valid() && source.p == tlsf.p && RegionOk(tlsf.p, r) && Clear(tlsf.h.pools, r.start, End(r))
      requires r.start % Pow2(source.minAlignLog) == 0 && (source.WellAligned() ==> ChunksGranular(tlsf.p, r.len))
      modifies tlsf, tlsf.slBitmap, tlsf.firstFree
      ensures tlsf.Valid()
      ensures tlsf.h == InsertPtr(tlsf.p, old(tlsf.h), r.start, r.len) && n == InsertedLength(tlsf.p, r.start, r.len)
      ensures OutsideKeptBut(tlsf.p, old(tlsf.h.pools), r.start, r.start + n - H(tlsf.p), old(tlsf.mem), tlsf.mem)
      ensures forall x {:trigger PayloadKept(old(tlsf.h.blocks), old(tlsf.mem), tlsf.mem, x)} ::
                PayloadKept(old(tlsf.h.blocks), old(tlsf.mem), tlsf.mem, x)
    {
      hide Tlsf.Valid, Clear, InsertPtr, InsertedLength, InsertAligned, ChunkedLength, PayloadKept, OutsideKeptBut, H,
        G, Top, Aligned, Pow2, ChunksGranular;
      if source.WellAligned() {
        MultipleAligned(tlsf.p, r.start, source.minAlignLog);
        AlignedInsert(tlsf.p, tlsf.h, r.start, r.len);
        n := tlsf.InsertFreeBlockPtrAligned(r.start, r.len);
      } else {
        n := tlsf.InsertFreeBlockPtr(r.start, r.len);
      }
    }

    /** Let the footer of a new region point to the region before it. */
    method WriteFooter(r: Region)
      requires tlsf.Valid() && ChainOk(tlsf.p, chain) && ChainOk(tlsf.p, chain + [r]) && RegionOk(tlsf.p, r)
      requires Housed(tlsf.p, source.minAlignLog, tlsf.h.pools, chain + [r])
      requires Linked(tlsf.p, source.minAlignLog, chain, tlsf.mem)
      requires growablePool.Some? <==> chain != []
      requires growablePool.Some? ==>
                 chain[|chain| - 1] == Region(growablePool.value.allocStart, growablePool.value.allocLen)
      modifies tlsf`mem
      ensures tlsf.Valid() && Linked(tlsf.p, source.minAlignLog, chain + [r], tlsf.mem)
      ensures forall x {:trigger PayloadKept(tlsf.h.blocks, old(tlsf.mem), tlsf.mem, x)} ::
                PayloadKept(tlsf.h.blocks, old(tlsf.mem), tlsf.mem, x)
    {
      hide Tlsf.Valid, ChainOk, Housed, Linked, FooterOf, Load, Store, PayloadKept, H, Unused, RegionOk;
      ghost var al := source.minAlignLog;
      FooterUnused(tlsf.p, al, tlsf.h.pools, chain + [r], |chain|);
      UnusedIs(tlsf.p, tlsf.h.pools, FooterOf(tlsf.p, al, r));
      var footer :=
        if growablePool.Some? then Cell(growablePool.value.allocStart, growablePool.value.allocLen) else Cell(0, 0);
      LinkedNew(tlsf.p, al, chain, r, footer, tlsf.mem);
      tlsf.WriteUnused(FooterOf(tlsf.p, source.minAlignLog, r), footer);
    }

    /** Obtain enough memory for an allocation to succeed. */
    method IncreasePoolToContainAllocation(layout: Layout) returns (ok: bool)
      requires Valid() && LayoutOk(tlsf.p, layout)
      modifies this, tlsf, tlsf.slBitmap, tlsf.firstFree, source
      ensures Valid()
      ensures ok ==> Operations.Allocate(tlsf.p, tlsf.h, layout).Done?
      ensures ok ==> Undisturbed(old(tlsf.h), old(tlsf.mem), tlsf.h, tlsf.mem)
      ensures !ok ==> unchanged(this, tlsf, tlsf.slBitmap, tlsf.firstFree, source`live, source`granted)
      ensures source.freed == old(source.freed)
      ensures Asked(tlsf.p, layout, source, old(growablePool), old(source.requests), source.requests, ok)
      ensures ok ==> Enlarged(tlsf.p, old(tlsf.h), tlsf.h, old(growablePool), old(chain), chain,
                              LastGrown(source.requests))
    {
      hide Tlsf.Valid, Source.Valid, Recorded, Sound, Inv, Clear, PoolEnd, PoolSizeToContainAllocation,
        Operations.Allocate, H, G, Top, Undisturbed, Enlarged;
      var extra := PoolSizeToContainAllocation(tlsf.p, layout);
      if extra.None? {
        return false;
      }
      PoolSizeOk(tlsf.p, layout);
      if growablePool.Some? && source.UseGrowablePool() {
        // try to extend an existing memory pool first
        if growablePool.value.poolLen + extra.value >= Top(tlsf.p) {
          return false;
        }
        ok := TryGrow(layout);
        if ok || source.contiguousGrowable {
          return;
        }
      }
      ok := ObtainRegion(layout);
    }

    /** Ask the source to grow the last region, and append what it adds. */
    method TryGrow(layout: Layout) returns (ok: bool)
      requires Valid() && growablePool.Some? && PoolSizeToContainAllocation(tlsf.p, layout).Some?
      requires growablePool.value.poolLen + PoolSizeToContainAllocation(tlsf.p, layout).value < Top(tlsf.p)
      modifies this, tlsf, tlsf.slBitmap, tlsf.firstFree, source
      ensures Valid()
      ensures ok ==> Operations.Allocate(tlsf.p, tlsf.h, layout).Done?
      ensures ok ==> Undisturbed(old(tlsf.h), old(tlsf.mem), tlsf.h, tlsf.mem)
      ensures !ok ==> unchanged(this, tlsf, tlsf.slBitmap, tlsf.firstFree, source`live, source`granted)
      ensures source.freed == old(source.freed)
      ensures var n := old(growablePool.value.poolLen) + PoolSizeToContainAllocation(tlsf.p, layout).value;
              0 <= n && source.requests == old(source.requests) + [GrowRegion(n, ok)]
      ensures ok ==> Enlarged(tlsf.p, old(tlsf.h), tlsf.h, old(growablePool), old(chain), chain, true)
    {
      hide Tlsf.Valid, Recorded, ChainOk, Housed, Linked, Inv, Clear, PoolEnd, PoolSizeToContainAllocation,
        Operations.Allocate, H, G, Top, Undisturbed, Aligned, Pow2, Longer, Source.Valid, Append, Enlarged, AppendedTo;
      PoolSizeOk(tlsf.p, layout);
      var pool := growablePool.value;
      var desired := pool.poolLen + PoolSizeToContainAllocation(tlsf.p, layout).value;
      RecordedAt(tlsf.p, source.live, chain);
      GrownRecorded(tlsf.p, source.live, chain, desired);
      var len := source.ReallocInplaceGrow(Region(pool.allocStart, pool.allocLen), desired);
      if len.None? {
        return false;
      }
      GrownRecorded(tlsf.p, old(source.live), chain, len.value);
      GrowPool(pool, len.value, layout);
      GrownIsEnlarged(tlsf.p, old(tlsf.h), tlsf.h, pool, old(chain), len.value);
      return true;
    }

    /** Create a brand new allocation that is large enough wherever it starts. */
    method ObtainRegion(layout: Layout) returns (ok: bool)
      requires Valid() && PoolSizeToContainAllocation(tlsf.p, layout).Some?
      modifies this, tlsf, tlsf.slBitmap, tlsf.firstFree, source
      ensures Valid()
      ensures ok ==> Operations.Allocate(tlsf.p, tlsf.h, layout).Done?
      ensures ok ==> Undisturbed(old(tlsf.h), old(tlsf.mem), tlsf.h, tlsf.mem)
      ensures !ok ==> unchanged(this, tlsf, tlsf.slBitmap, tlsf.firstFree)
      ensures !ok ==> unchanged(source`live, source`granted)
      ensures source.freed == old(source.freed)
      ensures AskedForRegion(tlsf.p, PoolSizeToContainAllocation(tlsf.p, layout).value, source, old(source.requests),
                             source.requests, ok)
      ensures ok ==> !LastGrown(source.requests)
      ensures ok ==> Enlarged(tlsf.p, old(tlsf.h), tlsf.h, old(growablePool), old(chain), chain, false)
    {
      hide Tlsf.Valid, Source.Valid, Recorded, Sound, Grows, Inv, PoolSizeToContainAllocation, Operations.Allocate, G,
        Top, Undisturbed, Aligned, Pow2, InsertPtr;
      PoolSizeOk(tlsf.p, layout);
      var bytes := PoolSizeToContainAllocation(tlsf.p, layout).value;
      if !source.WellAligned() {
        GranuleAligned(tlsf.p);
        AlignedApart(tlsf.p, bytes, G(tlsf.p));
        bytes := bytes + G(tlsf.p);
        if bytes >= Top(tlsf.p) {
          return false;
        }
      }
      var r := source.Alloc(bytes);
      if r.None? {
        return false;
      }
      NewRecorded(old(source.live), chain, r.value);
      FreshDisjoint(old(source.live), chain, r.value);
      AddRegion(r.value, layout);
      return true;
    }

    method Deallocate(ptr: int, alignLog: nat, ghost b: int)
      requires Valid() && IsUsed(tlsf.h.blocks, b)
      requires tlsf.h.blocks[b].kind.ptr == ptr && tlsf.h.blocks[b].kind.layout.alignLog == alignLog
      modifies tlsf, tlsf.slBitmap, tlsf.firstFree
      ensures Valid() && tlsf.h == Operations.Deallocate(tlsf.p, old(tlsf.h), b)
      ensures forall x {:trigger PayloadKept(old(tlsf.h.blocks), old(tlsf.mem), tlsf.mem, x)} ::
                x != b ==> PayloadKept(old(tlsf.h.blocks), old(tlsf.mem), tlsf.mem, x)
    {
      hide Tlsf.Valid, Recorded, Sound, Grows, OutsideKept, PayloadKept, Operations.Deallocate, Inv, ListsOk;
      ghost var h0 := tlsf.h;
      TlsfInv();
      DeallocateLive(tlsf.p, h0, b);
      tlsf.Deallocate(ptr, alignLog, b);
      StaysSound();
    }

    lemma TlsfInv()
      requires tlsf.Valid()
      ensures Inv(tlsf.p, tlsf.h)
    {
    }

    /** Free an allocation whose alignment is not known. */
    method DeallocateUnknownAlign(ptr: int, ghost b: int)
      requires Valid() && IsUsed(tlsf.h.blocks, b) && tlsf.h.blocks[b].kind.ptr == ptr
      modifies tlsf, tlsf.slBitmap, tlsf.firstFree
      ensures Valid() && tlsf.h == Operations.Deallocate(tlsf.p, old(tlsf.h), b)
      ensures forall x {:trigger PayloadKept(old(tlsf.h.blocks), old(tlsf.mem), tlsf.mem, x)} ::
                x != b ==> PayloadKept(old(tlsf.h.blocks), old(tlsf.mem), tlsf.mem, x)
    {
      hide Tlsf.Valid, Recorded, Sound, Grows, OutsideKept, PayloadKept, Operations.Deallocate, Inv, ListsOk;
      ghost var h0 := tlsf.h;
      TlsfInv();
      DeallocateLive(tlsf.p, h0, b);
      tlsf.DeallocateUnknownAlign(ptr, b);
      StaysSound();
    }

    /** Allocate from the pools there are; the result is 0 on failure. */
    method TryAllocate(layout: Layout) returns (ptr: int, ghost b: int)
      requires Valid() && LayoutOk(tlsf.p, layout)
      modifies tlsf, tlsf.slBitmap, tlsf.firstFree
      ensures Valid()
      ensures ptr == 0 ==> unchanged(tlsf, tlsf.slBitmap, tlsf.firstFree)
      ensures match Operations.Allocate(tlsf.p, old(tlsf.h), layout)
              case Fail => ptr == 0
              case Done(h', q) => 0 < ptr == q && tlsf.h == h'
      ensures ptr != 0 ==> Gained(old(tlsf.h), old(tlsf.mem), tlsf.h, tlsf.mem, b, ptr, layout)
    {
      hide Tlsf.Valid, Source.Valid, Recorded, Sound, Grows, OutsideKept, PayloadKept, Operations.Allocate, Inv,
        UsedKept, Live;
      ghost var h0 := tlsf.h;
      TlsfInv();
      ptr := tlsf.Allocate(layout);
      b := 0;
      if ptr != 0 {
        b := AllocateGains(tlsf.p, h0, layout);
        StaysSound();
      }
    }

    /** Allocate, with more memory from the source if necessary; the result is 0 on failure. */
    method Allocate(layout: Layout) returns (ptr: int, ghost b: int)
      requires Valid() && LayoutOk(tlsf.p, layout)
      modifies this, tlsf, tlsf.slBitmap, tlsf.firstFree, source
      ensures Valid()
      ensures match Operations.Allocate(tlsf.p, old(tlsf.h), layout)
              case Done(h', q) => 0 < ptr == q && tlsf.h == h' && unchanged(this, source)
              case Fail =>
                && (ptr == 0 ==> unchanged(this, tlsf, tlsf.slBitmap, tlsf.firstFree, source`live, source`granted))
                && Asked(tlsf.p, layout, source, old(growablePool), old(source.requests), source.requests, ptr != 0)
                && (ptr != 0 ==> Served(tlsf.p, old(tlsf.h), old(growablePool), old(chain), chain,
                                        LastGrown(source.requests), layout, tlsf.h, ptr))
      ensures source.freed == old(source.freed)
      ensures ptr != 0 ==> Gained(old(tlsf.h), old(tlsf.mem), tlsf.h, tlsf.mem, b, ptr, layout)
    {
      hide Tlsf.Valid, Source.Valid, Recorded, Sound, Grows, Gained, Undisturbed, Operations.Allocate, Inv, Asked,
        Enlarged, EnlargedHeap, LastGrown, Served;
      TlsfInv();
      ptr, b := TryAllocate(layout);
      if ptr != 0 {
        return;
      }
      var ok := IncreasePoolToContainAllocation(layout);
      if !ok {
        return;
      }
      ghost var h1, m1 := tlsf.h, tlsf.mem;
      TlsfInv();
      ptr, b := TryAllocate(layout);
      ServedFrom(tlsf.p, old(tlsf.h), h1, old(growablePool), old(chain), chain, LastGrown(source.requests), layout,
                 tlsf.h, ptr);
      GainedLater(old(tlsf.h), old(tlsf.mem), h1, m1, tlsf.h, tlsf.mem, b, ptr, layout);
    }

    /** Shrink or grow an allocation, moving it if necessary; the result is 0 on failure. */
    method Reallocate(ptr: int, layout: Layout, ghost b: int) returns (q: int, ghost c: int)
      requires Valid() && LayoutOk(tlsf.p, layout) && IsUsed(tlsf.h.blocks, b)
      requires tlsf.h.blocks[b].kind.ptr == ptr && tlsf.h.blocks[b].kind.layout.alignLog == layout.alignLog
      modifies this, tlsf, tlsf.slBitmap, tlsf.firstFree, source
      ensures Valid()
      ensures match Operations.Reallocate(tlsf.p, old(tlsf.h), b, layout)
              case Done(h', r) => 0 < q == r && tlsf.h == h' && unchanged(this, source)
              case Fail =>
                && (q == 0 ==> unchanged(this, tlsf, tlsf.slBitmap, tlsf.firstFree, source`live, source`granted))
                && Asked(tlsf.p, layout, source, old(growablePool), old(source.requests), source.requests, q != 0)
                && (q != 0 ==>
                      exists h2 ::
                        && Served(tlsf.p, old(tlsf.h), old(growablePool), old(chain), chain,
                                  LastGrown(source.requests), layout, h2, q)
                        && Replaced(tlsf.p, h2, b, tlsf.h))
      ensures source.freed == old(source.freed)
      ensures q != 0 ==>
                && (c == b || !IsUsed(old(tlsf.h.blocks), c))
                && Live(tlsf.h.blocks) == (Live(old(tlsf.h.blocks)) - {b})[c := Used(q, layout)]
                && Copied(old(tlsf.mem), ptr, tlsf.mem, q, Surviving(old(tlsf.h), b, layout.size))
      ensures forall x {:trigger PayloadKept(old(tlsf.h.blocks), old(tlsf.mem), tlsf.mem, x)} ::
                x != b ==> PayloadKept(old(tlsf.h.blocks), old(tlsf.mem), tlsf.mem, x)
    {
      hide Tlsf.Valid, Source.Valid, Recorded, Sound, Grows, OutsideKept, PayloadKept, Operations.Reallocate, Inv,
        UsedKept, Live, Copied, Gained, Asked, Operations.Allocate, Served, LastGrown, Replaced;
      ghost var h0, m0 := tlsf.h, tlsf.mem;
      TlsfInv();
      if Operations.Reallocate(tlsf.p, h0, b, layout).Fail? {
        FallbackFails(tlsf.p, h0, b, layout);
      }
      NothingChanged(tlsf.p, h0.pools, h0.blocks, m0);
      var oldSize := tlsf.SizeOfAllocation(ptr, layout.alignLog, b);
      q := tlsf.Reallocate(ptr, layout, b);
      c := 0;
      if q != 0 {
        c := ReallocateLive(tlsf.p, h0, b, layout);
        StaysSound();
        return;
      }
      // allocate a whole new memory block, with more memory if necessary
      q, c := Allocate(layout);
      if q != 0 {
        MoveTo(ptr, layout, q, oldSize, h0, m0, b, c);
      }
    }

    /** Move an allocation to the new place `q` of block `c`. */
    method MoveTo(ptr: int, layout: Layout, q: int, oldSize: nat, ghost h0: Heap, ghost m0: Memory, ghost b: int,
                  ghost c: int)
      requires Valid() && IsUsed(h0.blocks, b) && Gained(h0, m0, tlsf.h, tlsf.mem, c, q, layout)
      requires h0.blocks[b].kind.ptr == ptr && h0.blocks[b].kind.layout.alignLog == layout.alignLog
      requires ptr + oldSize == b + h0.blocks[b].size < ptr + layout.size
      modifies tlsf, tlsf.slBitmap, tlsf.firstFree
      ensures Valid() && Replaced(tlsf.p, old(tlsf.h), b, tlsf.h) && unchanged(this)
      ensures !IsUsed(h0.blocks, c) && Live(tlsf.h.blocks) == (Live(h0.blocks) - {b})[c := Used(q, layout)]
      ensures Copied(m0, ptr, tlsf.mem, q, Surviving(h0, b, layout.size))
      ensures forall x {:trigger PayloadKept(h0.blocks, m0, tlsf.mem, x)} ::
                x != b ==> PayloadKept(h0.blocks, m0, tlsf.mem, x)
    {
      hide Tlsf.Valid, Source.Valid, Recorded, Sound, Grows, OutsideKept, PayloadKept, Operations.Deallocate, Inv, Live,
        Copied, Move;
      ghost var h1, m1 := tlsf.h, tlsf.mem;
      TlsfInv();
      GainedFacts(tlsf.p, h0, m0, h1, m1, c, q, layout, b);
      // the new size is no less than the old one
      tlsf.CopyPayload(ptr, q, oldSize, b, c);
      StaysSound();
      ghost var m2 := tlsf.mem;
      Deallocate(ptr, layout.alignLog, b);
      DeallocateLive(tlsf.p, h1, b);
      CopiedAcross(tlsf.p, h0, b, m0, h1, c, m1, m2, tlsf.mem, oldSize);
      GainedAway(h0, m0, h1, m1, m2, tlsf.mem, c, q, layout, b);
    }

    /** Give all regions back to the source by following the footers. */
    method Drop()
      requires Valid()
      modifies source
      ensures !source.supportsDealloc ==> unchanged(source)
      ensures source.supportsDealloc ==> source.live == map[] && source.freed == old(source.freed) + Reversed(chain)
      ensures source.granted == old(source.granted) == |chain| == |Reversed(chain)|
    {
      hide Tlsf.Valid, ChainOk, Housed, Linked, FooterOf, Load, Recorded, Reversed, Source.Valid;
      if !source.supportsDealloc {
        return;
      }
      ghost var k, freed := |chain|, source.freed;
      ChainRegions(tlsf.p, chain);
      assert chain[..k] == chain && chain[k..] == [];
      var cur := None;
      if growablePool.Some? {
        cur := Some(Region(growablePool.value.allocStart, growablePool.value.allocLen));
      }
      NothingReversed();
      while cur.Some?
        invariant 0 <= k <= |chain| && cur == (if k == 0 then None else Some(chain[k - 1]))
        invariant source.Valid() && Recorded(source.live, chain[..k])
        invariant source.freed == freed + Reversed(chain[k..]) && source.granted == old(source.granted)
        decreases k
      {
        k := k - 1;
        ReadFooter(tlsf.p, source.minAlignLog, chain, tlsf.mem, k);
        RecordedLast(tlsf.p, source.live, chain, k);
        ReversedStep(chain, k, freed);
        var footer := Load(tlsf.mem, FooterOf(tlsf.p, source.minAlignLog, cur.value));
        source.Dealloc(cur.value);
        cur := if footer.w0 == 0 then None else Some(Region(footer.w0, footer.w1));
      }
      assert chain[0..] == chain;
      NothingRecorded(source.live, chain[..0]);
    }
  }
}
