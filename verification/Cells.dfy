/**
 The cells that are read and written at their first address: headers, list links, pads and footers occupy half
 a granule each, and no two of them share a byte.
 */
module Cells {
  import opened Arith
  import opened Config
  import opened Blocks
  import opened FreeLists
  import opened Heap
  import opened Operations
  import opened Represent
  import opened Regions

  /** Every cell is aligned to its size, so that two different cells share no byte. */
  lemma CellAligned(p: Params, h: Heap, a: int)
    requires Inv(p, h) && IsCell(p, h.blocks, a)
    ensures a % H(p) == 0
  {
    hide ListsOk, Apart, PoolOk, PoolsApart;
    if a in h.blocks {
      assert BlockOk(p, h.pools, h.blocks, a);
      AlignedToHalf(p, a);
    } else if IsFree(h.blocks, a - H(p)) {
      assert BlockOk(p, h.pools, h.blocks, a - H(p));
      AlignedToHalf(p, a - H(p));
    } else {
      var b :| IsUsed(h.blocks, b) && p.gl <= h.blocks[b].kind.layout.alignLog && a == h.blocks[b].kind.ptr - H(p);
      assert BlockOk(p, h.pools, h.blocks, b);
      MultipleAligned(p, h.blocks[b].kind.ptr, h.blocks[b].kind.layout.alignLog);
      AlignedToHalf(p, h.blocks[b].kind.ptr);
    }
  }

  lemma AlignedToHalf(p: Params, x: int)
    requires Aligned(p, x)
    ensures x % H(p) == 0 && (x + H(p)) % H(p) == 0 && (x - H(p)) % H(p) == 0
  {
    MultipleOfSmaller(x, p.gl - 1, p.gl);
    MultipleIs(1, H(p));
    MultipleDiff(x, H(p), H(p));
  }

  /** Two different cells share no byte. */
  lemma CellsApart(p: Params, h: Heap, a: int, c: int)
    requires Inv(p, h) && IsCell(p, h.blocks, a) && IsCell(p, h.blocks, c) && a < c
    ensures a + H(p) <= c
  {
    hide Inv, H, G, IsCell;
    CellAligned(p, h, a);
    CellAligned(p, h, c);
    MultipleDiff(a, c, H(p));
  }

  /** No byte of a cell belongs to a live payload. */
  lemma CellAvoidsPayload(p: Params, h: Heap, a: int, b: int)
    requires Inv(p, h) && IsCell(p, h.blocks, a) && IsUsed(h.blocks, b)
    ensures a + H(p) <= h.blocks[b].kind.ptr || b + h.blocks[b].size <= a
  {
    hide Inv, H, G, IsCell;
    CellAligned(p, h, a);
    CellOutside(p, h, a, b);
    PayloadBounds(p, h, b);
    if a < h.blocks[b].kind.ptr {
      MultipleDiff(a, h.blocks[b].kind.ptr, H(p));
    }
  }

  lemma PayloadBounds(p: Params, h: Heap, b: int)
    requires Inv(p, h) && IsUsed(h.blocks, b)
    ensures h.blocks[b].kind.ptr % H(p) == 0
  {
    hide ListsOk, Apart, PoolOk, PoolsApart;
    assert BlockOk(p, h.pools, h.blocks, b);
    var k := h.blocks[b].kind;
    AlignedToHalf(p, b);
    if p.gl <= k.layout.alignLog {
      MultipleAligned(p, k.ptr, k.layout.alignLog);
      AlignedToHalf(p, k.ptr);
    }
  }

  lemma CellOutside(p: Params, h: Heap, a: int, b: int)
    requires Inv(p, h) && IsCell(p, h.blocks, a) && IsUsed(h.blocks, b)
    ensures a < h.blocks[b].kind.ptr || b + h.blocks[b].size <= a
  {
    hide ListsOk, Aligned, Pow2, G, H, TilingOk;
    PayloadAway(p, h, b, a);
    PayloadShape(p, h, b);
    if IsFree(h.blocks, a - H(p)) {
      PayloadAway(p, h, b, a - H(p));
    } else if a !in h.blocks {
      var c :| IsUsed(h.blocks, c) && p.gl <= h.blocks[c].kind.layout.alignLog && a == h.blocks[c].kind.ptr - H(p);
      PayloadAway(p, h, b, c);
    }
  }

  // ----- footers -----

  /** A cell lies inside a pool, before the unused half of its sentinel. */
  lemma CellInPool(p: Params, h: Heap, a: int) returns (s: int)
    requires Inv(p, h) && IsCell(p, h.blocks, a)
    ensures s in h.pools && s <= a && a + H(p) <= h.pools[s] - H(p)
  {
    hide Inv, H, G;
    if a in h.blocks {
      BlockInPool(p, h, a);
      s := h.blocks[a].pool;
    } else if IsFree(h.blocks, a - H(p)) {
      BlockInPool(p, h, a - H(p));
      s := h.blocks[a - H(p)].pool;
    } else {
      var b :| IsUsed(h.blocks, b) && p.gl <= h.blocks[b].kind.layout.alignLog && a == h.blocks[b].kind.ptr - H(p);
      BlockInPool(p, h, b);
      s := h.blocks[b].pool;
    }
  }

  /** No byte of a footer belongs to a header, a pair of links or a pad. */
  lemma FooterAvoidsCell(p: Params, alignLog: nat, h: Heap, chain: seq<Region>, j: nat, a: int)
    requires ChainOk(p, chain) && Housed(p, alignLog, h.pools, chain) && j < |chain|
    requires Inv(p, h) && IsCell(p, h.blocks, a)
    ensures var f := FooterOf(p, alignLog, chain[j]);
            a + H(p) <= f || f + H(p) <= a
  {
    hide Inv, IsCell, Housed, H, G, FooterOf;
    var s := CellInPool(p, h, a);
    FooterAvoids(p, alignLog, h.pools, chain, j, s, a, a + H(p));
  }

  /** No byte of a footer belongs to a block other than a sentinel, and so to no payload. */
  lemma FooterAvoidsBlock(p: Params, alignLog: nat, h: Heap, chain: seq<Region>, j: nat, b: int)
    requires ChainOk(p, chain) && Housed(p, alignLog, h.pools, chain) && j < |chain|
    requires Inv(p, h) && b in h.blocks && !h.blocks[b].kind.Sentinel?
    ensures var f := FooterOf(p, alignLog, chain[j]);
            b + h.blocks[b].size <= f || f + H(p) <= b
  {
    hide Inv, Housed, H, G, FooterOf;
    BlockInPool(p, h, b);
    FooterAvoids(p, alignLog, h.pools, chain, j, h.blocks[b].pool, b, b + h.blocks[b].size);
  }

  /** Two footers share no byte. */
  lemma FootersShareNothing(p: Params, alignLog: nat, chain: seq<Region>, i: nat, j: nat)
    requires ChainOk(p, chain) && i < |chain| && j < |chain| && i != j
    ensures var f, g := FooterOf(p, alignLog, chain[i]), FooterOf(p, alignLog, chain[j]);
            f + H(p) <= g || g + H(p) <= f
  {
    hide FooterOf, H, G, Top;
    FooterInside(p, alignLog, chain[i]);
    FooterInside(p, alignLog, chain[j]);
    assert Disjoint(chain[i], chain[j]);
  }
}
