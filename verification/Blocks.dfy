/** The physical blocks of the pools, keyed by address, and the one way in which every operation recuts them. */
module Blocks {
  import opened Arith
  import opened Config

  /** A requested size with its alignment `Pow2(alignLog)`. */
  datatype Layout = Layout(size: nat, alignLog: nat)

  /** A used block remembers the payload pointer it handed out and the layout it was requested with. */
  datatype Kind = Free | Used(ptr: int, layout: Layout) | Sentinel

  /** `prev` is the preceding block of the same pool, or 0; `pool` is the address of the pool. */
  datatype Block = Block(size: int, kind: Kind, prev: int, pool: int)

  type Tiling = map<int, Block>
  /** Maps the start of each pool to its end. */
  type Pools = map<int, int>

  predicate Aligned(p: Params, x: int) {
    x % G(p) == 0
  }

  predicate IsFree(bs: Tiling, b: int) {
    b in bs && bs[b].kind.Free?
  }

  predicate IsUsed(bs: Tiling, b: int) {
    b in bs && bs[b].kind.Used?
  }

  // ----- the invariant -----

  /**
   A payload lies inside its block, behind the header and, for a large alignment, behind the pad and no further
   than it must. The block is no larger than the payload needs.
   */
  ghost predicate PayloadOk(p: Params, b: int, size: int, ptr: int, layout: Layout) {
    && b + H(p) <= ptr && ptr + layout.size <= b + size < ptr + layout.size + G(p)
    && ptr % Pow2(layout.alignLog) == 0
    && (if layout.alignLog < p.gl then ptr == b + H(p) else b + G(p) <= ptr <= b + Pow2(layout.alignLog))
  }

  /** What a block demands of itself and of its neighbours. */
  ghost predicate BlockOk(p: Params, pools: Pools, bs: Tiling, b: int) {
    b in bs ==>
      var k := bs[b];
      && 0 < b && Aligned(p, b) && Aligned(p, k.size) && G(p) <= k.size
      && k.pool in pools && k.pool <= b && b + k.size <= pools[k.pool]
      && (k.kind.Sentinel? <==> b + k.size == pools[k.pool])
      && (k.kind.Sentinel? ==> k.size == G(p) && k.prev != 0)
      && (k.kind.Used? ==> PayloadOk(p, b, k.size, k.kind.ptr, k.kind.layout))
      && (k.prev == 0 <==> b == k.pool)
      && (k.prev != 0 ==>
            k.prev in bs && k.prev + bs[k.prev].size == b && bs[k.prev].pool == k.pool)
      && (!k.kind.Sentinel? ==>
            b + k.size in bs && bs[b + k.size].prev == b && bs[b + k.size].pool == k.pool)
      && (k.kind.Free? ==> !IsFree(bs, b + k.size))
  }

  ghost predicate Apart(bs: Tiling, a: int, b: int) {
    a in bs && b in bs && a < b ==> a + bs[a].size <= b
  }

  ghost predicate PoolOk(p: Params, pools: Pools, bs: Tiling, s: int) {
    s in pools ==>
      && 0 < s && s in bs && bs[s].pool == s
      && s + 2 * G(p) <= pools[s] <= Top(p)
      && Aligned(p, pools[s])
      && (MaxPoolSize(p).Some? ==> pools[s] - s <= MaxPoolSize(p).value)
  }

  ghost predicate PoolsApart(pools: Pools, s: int, t: int) {
    s in pools && t in pools && s < t ==> pools[s] <= t
  }

  ghost predicate TilingOk(p: Params, pools: Pools, bs: Tiling) {
    && (forall b {:trigger BlockOk(p, pools, bs, b)} :: BlockOk(p, pools, bs, b))
    && (forall a, b {:trigger Apart(bs, a, b)} :: Apart(bs, a, b))
    && (forall s {:trigger PoolOk(p, pools, bs, s)} :: PoolOk(p, pools, bs, s))
    && (forall s, t {:trigger PoolsApart(pools, s, t)} :: PoolsApart(pools, s, t))
  }

  // ----- recutting -----

  /**
   Replace the blocks of `[lo, hi)` by one block `[lo, mid)` of the given kind and, unless `mid == hi`,
   a free block `[mid, hi)`.
   */
  function Retile(bs: Tiling, lo: int, mid: int, hi: int, kind: Kind): Tiling
    requires lo in bs && hi in bs && lo < mid <= hi
  {
    var rest := map a | a in bs && !(lo <= a < hi) :: bs[a];
    var first := rest[hi := bs[hi].(prev := if mid == hi then lo else mid)]
                     [lo := Block(mid - lo, kind, bs[lo].prev, bs[lo].pool)];
    if mid == hi then first else first[mid := Block(hi - mid, Free, lo, bs[lo].pool)]
  }

  /** The recut range is made of whole blocks, and no free block ends up next to another. */
  ghost predicate CanRetile(p: Params, bs: Tiling, lo: int, mid: int, hi: int, kind: Kind) {
    && lo in bs && hi in bs && bs[hi].pool == bs[lo].pool
    && lo < mid <= hi && Aligned(p, mid)
    && !kind.Sentinel?
    && (kind.Used? ==> PayloadOk(p, lo, mid - lo, kind.ptr, kind.layout))
    && (kind.Free? ==> mid == hi && !IsFree(bs, bs[lo].prev))
    && (kind.Free? || mid < hi ==> !IsFree(bs, hi))
  }

  lemma AlignedApart(p: Params, a: int, b: int)
    requires Aligned(p, a) && Aligned(p, b)
    ensures Aligned(p, b - a) && Aligned(p, a + b)
    ensures a < b ==> a + G(p) <= b
  {
    MultipleDiff(a, b, G(p));
    MultipleDiff(b, a, G(p));
  }

  lemma RetileKeepsOthers(p: Params, pools: Pools, bs: Tiling, lo: int, mid: int, hi: int, kind: Kind, b: int)
    requires TilingOk(p, pools, bs) && CanRetile(p, bs, lo, mid, hi, kind)
    requires b in bs && (b < lo || hi < b)
    ensures BlockOk(p, pools, Retile(bs, lo, mid, hi, kind), b)
  {
    hide Aligned, PayloadOk, G, H;
    assert BlockOk(p, pools, bs, b);
    assert BlockOk(p, pools, bs, bs[b].prev);
    assert BlockOk(p, pools, bs, lo);
    assert Apart(bs, b, lo) && Apart(bs, bs[b].prev, hi);
  }

  lemma RetileMakes(p: Params, pools: Pools, bs: Tiling, lo: int, mid: int, hi: int, kind: Kind, b: int)
    requires TilingOk(p, pools, bs) && CanRetile(p, bs, lo, mid, hi, kind)
    requires b == lo || b == mid || b == hi
    ensures BlockOk(p, pools, Retile(bs, lo, mid, hi, kind), b)
  {
    hide Aligned, PayloadOk, G, H;
    assert BlockOk(p, pools, bs, lo);
    assert BlockOk(p, pools, bs, bs[lo].prev);
    assert BlockOk(p, pools, bs, hi);
    AlignedApart(p, lo, mid);
    AlignedApart(p, mid, hi);
  }

  lemma RetileKeepsApart(p: Params, pools: Pools, bs: Tiling, lo: int, mid: int, hi: int, kind: Kind, a: int, b: int)
    requires TilingOk(p, pools, bs) && CanRetile(p, bs, lo, mid, hi, kind)
    ensures Apart(Retile(bs, lo, mid, hi, kind), a, b)
  {
    assert Apart(bs, a, b) && Apart(bs, a, lo);
  }

  lemma RetileOk(p: Params, pools: Pools, bs: Tiling, lo: int, mid: int, hi: int, kind: Kind)
    requires TilingOk(p, pools, bs) && CanRetile(p, bs, lo, mid, hi, kind)
    ensures TilingOk(p, pools, Retile(bs, lo, mid, hi, kind))
  {
    hide BlockOk, Apart, Retile;
    var bs' := Retile(bs, lo, mid, hi, kind);
    forall b
      ensures BlockOk(p, pools, bs', b)
    {
      RetileBlockOk(p, pools, bs, lo, mid, hi, kind, b);
    }
    forall a, b
      ensures Apart(bs', a, b)
    {
      RetileKeepsApart(p, pools, bs, lo, mid, hi, kind, a, b);
    }
    forall s
      ensures PoolOk(p, pools, bs', s)
    {
      RetileKeepsPools(p, pools, bs, lo, mid, hi, kind, s);
    }
  }

  lemma RetileBlockOk(p: Params, pools: Pools, bs: Tiling, lo: int, mid: int, hi: int, kind: Kind, b: int)
    requires TilingOk(p, pools, bs) && CanRetile(p, bs, lo, mid, hi, kind)
    ensures BlockOk(p, pools, Retile(bs, lo, mid, hi, kind), b)
  {
    var bs' := Retile(bs, lo, mid, hi, kind);
    if b == lo || b == mid || b == hi {
      RetileMakes(p, pools, bs, lo, mid, hi, kind, b);
    } else if b in bs' {
      RetileKeepsOthers(p, pools, bs, lo, mid, hi, kind, b);
    }
  }

  lemma RetileKeepsPools(p: Params, pools: Pools, bs: Tiling, lo: int, mid: int, hi: int, kind: Kind, s: int)
    requires TilingOk(p, pools, bs) && CanRetile(p, bs, lo, mid, hi, kind)
    ensures PoolOk(p, pools, Retile(bs, lo, mid, hi, kind), s)
  {
    assert PoolOk(p, pools, bs, s);
    assert BlockOk(p, pools, bs, s);
    assert BlockOk(p, pools, bs, lo);
    assert BlockOk(p, pools, bs, hi);
    if s in pools && lo <= s < hi {
      assert PoolsApart(pools, bs[lo].pool, s);
      assert s == lo;
    }
  }

  // ----- the free blocks -----

  /** The free blocks with their sizes. */
  function FreeBlocks(bs: Tiling): map<int, int> {
    map b | b in bs && bs[b].kind.Free? :: bs[b].size
  }

  function Drop(fs: map<int, int>, lo: int, hi: int): map<int, int> {
    map b | b in fs && !(lo <= b < hi) :: fs[b]
  }

  lemma RetileFree(bs: Tiling, lo: int, mid: int, hi: int, kind: Kind)
    requires lo in bs && hi in bs && lo < mid <= hi
    ensures var fs := Drop(FreeBlocks(bs), lo, hi);
            FreeBlocks(Retile(bs, lo, mid, hi, kind)) ==
            if kind.Free? then (if mid < hi then fs[lo := mid - lo][mid := hi - mid] else fs[lo := hi - lo])
            else if mid < hi then fs[mid := hi - mid]
            else fs
  {
  }

  // ----- neighbours -----

  /** Between a block and its successor there is no other block. */
  lemma NothingBetween(p: Params, pools: Pools, bs: Tiling, b: int, x: int)
    requires TilingOk(p, pools, bs) && b in bs && x in bs && b <= x < b + bs[b].size
    ensures x == b
  {
    assert Apart(bs, b, x);
  }

  /** A block that does not end its pool is followed by another of the same pool. */
  lemma HasNext(p: Params, pools: Pools, bs: Tiling, b: int)
    requires TilingOk(p, pools, bs) && b in bs && !bs[b].kind.Sentinel?
    ensures var n := b + bs[b].size;
            n in bs && b < n && bs[n].prev == b && bs[n].pool == bs[b].pool && (bs[b].kind.Free? ==> !IsFree(bs, n))
  {
    assert BlockOk(p, pools, bs, b);
  }

  lemma HasPrev(p: Params, pools: Pools, bs: Tiling, b: int)
    requires TilingOk(p, pools, bs) && b in bs && bs[b].prev != 0
    ensures var q := bs[b].prev;
            && q in bs && 0 < q < b && q + bs[q].size == b && bs[q].pool == bs[b].pool && !bs[q].kind.Sentinel?
            && (bs[b].kind.Free? ==> !IsFree(bs, q))
  {
    assert BlockOk(p, pools, bs, b);
    assert BlockOk(p, pools, bs, bs[b].prev);
  }
}
