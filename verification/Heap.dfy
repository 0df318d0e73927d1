/** The allocator as a state machine over blocks, pools and lists: what each operation does and keeps. */
module Heap {
  import opened Arith
  import opened Config
  import opened SizeClass
  import opened Blocks
  import opened FreeLists

  datatype Heap = Heap(blocks: Tiling, pools: Pools, lists: Lists)

  ghost predicate Inv(p: Params, h: Heap) {
    && TilingOk(p, h.pools, h.blocks)
    && ListsOk(p, h.lists, FreeBlocks(h.blocks))
  }

  // ----- recutting blocks and relinking the free ones -----

  function UnlinkAll(p: Params, lists: Lists, bs: Tiling, drop: seq<int>): Lists
    requires forall i :: 0 <= i < |drop| ==> drop[i] in bs
  {
    if drop == [] then lists
    else UnlinkAll(p, Unlink(p, lists, drop[0], bs[drop[0]].size), bs, drop[1..])
  }

  /**
   Take the free blocks `drop` of `[lo, hi)` out of their lists, recut `[lo, hi)`, and put the resulting
   free block, if there is one, at the front of its list.
   */
  function Reshape(p: Params, h: Heap, lo: int, mid: int, hi: int, kind: Kind, drop: seq<int>): Heap
    requires lo in h.blocks && hi in h.blocks && lo < mid <= hi
    requires forall i :: 0 <= i < |drop| ==> drop[i] in h.blocks
  {
    var lists := UnlinkAll(p, h.lists, h.blocks, drop);
    Heap(Retile(h.blocks, lo, mid, hi, kind), h.pools,
         if kind.Free? then Link(p, lists, lo, hi - lo)
         else if mid < hi then Link(p, lists, mid, hi - mid)
         else lists)
  }

  ghost predicate CanReshape(p: Params, h: Heap, lo: int, mid: int, hi: int, kind: Kind, drop: seq<int>) {
    && CanRetile(p, h.blocks, lo, mid, hi, kind)
    && NoDup(drop)
    && forall b :: b in drop <==> lo <= b < hi && IsFree(h.blocks, b)
  }

  /** Every block that a pool can hold has a list. */
  lemma FreeHasList(p: Params, pools: Pools, bs: Tiling, b: int)
    requires TilingOk(p, pools, bs) && IsFree(bs, b)
    ensures 0 < b && ListOf(p, bs[b].size).Some?
  {
    hide PayloadOk;
    var k := bs[b];
    assert BlockOk(p, pools, bs, b);
    assert BlockOk(p, pools, bs, b + k.size);
    assert PoolOk(p, pools, bs, k.pool);
    assert Granular(p, k.size);
    HasList(p, k.size);
    if MaxPoolSize(p).None? {
      Pow2Mono(p.w, p.gl + p.fllen);
    }
  }

  lemma {:induction false} UnlinkAllOk(p: Params, lists: Lists, bs: Tiling, free: map<int, int>, drop: seq<int>)
    requires ListsOk(p, lists, free) && NoDup(drop)
    requires forall i :: 0 <= i < |drop| ==> drop[i] in bs && drop[i] in free && free[drop[i]] == bs[drop[i]].size
    ensures ListsOk(p, UnlinkAll(p, lists, bs, drop), free - (set b | b in drop))
    decreases drop
  {
    hide ListOf, ListsOk, Unlink;
    if drop == [] {
      assert free - (set b | b in drop) == free;
    } else {
      var b, rest := drop[0], drop[1..];
      UnlinkOk(p, lists, free, b);
      UnlinkAllOk(p, Unlink(p, lists, b, bs[b].size), bs, free - {b}, rest);
      assert free - {b} - (set x | x in rest) == free - (set x | x in drop) by {
        assert drop == [b] + rest;
      }
    }
  }

  lemma ReshapeOk(p: Params, h: Heap, lo: int, mid: int, hi: int, kind: Kind, drop: seq<int>)
    requires Inv(p, h) && CanReshape(p, h, lo, mid, hi, kind, drop)
    ensures forall i :: 0 <= i < |drop| ==> drop[i] in h.blocks
    ensures Inv(p, Reshape(p, h, lo, mid, hi, kind, drop))
  {
    hide ListOf, ListsOk, TilingOk, Link, Retile;
    forall i | 0 <= i < |drop|
      ensures IsFree(h.blocks, drop[i])
    {
      assert drop[i] in drop;
    }
    var free := FreeBlocks(h.blocks);
    UnlinkAllOk(p, h.lists, h.blocks, free, drop);
    var lists := UnlinkAll(p, h.lists, h.blocks, drop);
    var left := Drop(free, lo, hi);
    assert free - (set b | b in drop) == left;
    RetileOk(p, h.pools, h.blocks, lo, mid, hi, kind);
    RetileFree(h.blocks, lo, mid, hi, kind);
    var bs' := Retile(h.blocks, lo, mid, hi, kind);
    var b := if kind.Free? then lo else mid;
    if kind.Free? || mid < hi {
      assert b in FreeBlocks(bs');
      FreeHasList(p, h.pools, bs', b);
      LinkOk(p, lists, left, b, hi - b);
    }
  }

  /** The free blocks that stay listed are outside the recut range. */
  lemma OthersOutside(p: Params, h: Heap, lo: int, mid: int, hi: int, kind: Kind, drop: seq<int>, x: int)
    requires Inv(p, h) && CanReshape(p, h, lo, mid, hi, kind, drop)
    requires IsFree(h.blocks, x) && x !in drop
    ensures x + G(p) <= lo || hi <= x
  {
    hide Aligned, PayloadOk, ListsOk, G, H;
    assert BlockOk(p, h.pools, h.blocks, x);
    assert Apart(h.blocks, x, lo);
  }

  /** The free rest of a recut range is a block of at least a granule, and so is what precedes it. */
  lemma RestIsBlock(p: Params, h: Heap, lo: int, mid: int, hi: int, kind: Kind, drop: seq<int>)
    requires Inv(p, h) && CanReshape(p, h, lo, mid, hi, kind, drop)
    ensures 0 < lo && lo + G(p) <= mid && hi <= Top(p)
    ensures mid < hi ==> mid + G(p) <= hi
    ensures kind.Free? || mid < hi ==> ListOf(p, if kind.Free? then hi - lo else hi - mid).Some?
  {
    hide Aligned, PayloadOk, ListsOk, ListOf, G, H, Retile;
    assert BlockOk(p, h.pools, h.blocks, lo);
    assert BlockOk(p, h.pools, h.blocks, hi);
    assert PoolOk(p, h.pools, h.blocks, h.blocks[hi].pool);
    AlignedApart(p, lo, mid);
    AlignedApart(p, mid, hi);
    RetileOk(p, h.pools, h.blocks, lo, mid, hi, kind);
    RetileFree(h.blocks, lo, mid, hi, kind);
    var bs' := Retile(h.blocks, lo, mid, hi, kind);
    var b := if kind.Free? then lo else mid;
    if kind.Free? || mid < hi {
      assert b in FreeBlocks(bs') && FreeBlocks(bs')[b] == hi - b;
      FreeHasList(p, h.pools, bs', b);
    }
  }
}
