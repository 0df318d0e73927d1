/** The operations of the allocator on the abstract heap, and the invariant each of them keeps. */
module Operations {
  import opened Arith
  import opened Bits
  import opened Config
  import opened SizeClass
  import opened Blocks
  import opened FreeLists
  import opened Heap

  // ----- where a payload goes -----

  /** The first address behind the header at `b` that has the requested alignment. */
  function PayloadStart(p: Params, b: int, alignLog: nat): int {
    RoundUp(b + H(p), Pow2(alignLog))
  }

  /** The most bytes that header and padding can take. */
  function MaxOverhead(p: Params, alignLog: nat): nat {
    var align := Pow2(alignLog);
    (if align > H(p) then align - H(p) else 0) + H(p)
  }

  /** An addition of words whose result the source does not check: it must fit a word. */
  function Plus(p: Params, x: nat, y: nat): nat
    requires x + y < Top(p)
  {
    x + y
  }

  /** Clear the lowest `k` digits of a word with a mask. */
  function MaskDown(p: Params, x: nat, k: nat): (r: nat)
    requires x < Top(p) && k <= p.w
    ensures r == RoundDown(x, Pow2(k))
  {
    AndNotOnes(x, k, p.w);
    And(x, Not(Pow2(k) - 1, p.w))
  }

  /** Round up to whole granules, or fail where the additions overflow a word. */
  function BlockSize(p: Params, overhead: nat, size: nat): Option<nat> {
    if overhead + size >= Top(p) || overhead + size + (G(p) - 1) >= Top(p) then None
    else
      WidthExceeds(p);
      Some(MaskDown(p, overhead + size + (G(p) - 1), p.gl))
  }

  /** The block size that is sure to hold the allocation wherever the block starts. */
  function SearchSize(p: Params, layout: Layout): Option<nat> {
    BlockSize(p, MaxOverhead(p, layout.alignLog), layout.size)
  }

  lemma BlockSizeIs(p: Params, overhead: nat, size: nat)
    requires BlockSize(p, overhead, size).Some?
    ensures BlockSize(p, overhead, size).value == RoundUp(overhead + size, G(p))
  {
    hide MaskDown, Top, RoundDown;
    assert overhead + size + (G(p) - 1) == (overhead + size) + (G(p) - 1);
  }

  lemma BlockSizeBelow(p: Params, overhead: nat, size: nat)
    requires BlockSize(p, overhead, size).Some?
    ensures BlockSize(p, overhead, size).value < Top(p)
  {
    hide RoundDown, Pow2;
    RoundDownProps(overhead + size + (G(p) - 1), Pow2(p.gl));
  }

  lemma BlockSizeOk(p: Params, overhead: nat, size: nat)
    requires BlockSize(p, overhead, size).Some?
    ensures var s := BlockSize(p, overhead, size).value;
            && s == RoundUp(overhead + size, G(p))
            && overhead + size <= s < overhead + size + G(p) && Aligned(p, s)
            && (overhead > 0 ==> Granular(p, s))
  {
    hide BlockSize, RoundUp;
    BlockSizeIs(p, overhead, size);
    BlockSizeBelow(p, overhead, size);
    RoundUpProps(overhead + size, G(p));
    if overhead > 0 {
      MultipleDiff(0, RoundUp(overhead + size, G(p)), G(p));
    }
  }

  lemma PayloadStartOk(p: Params, b: int, alignLog: nat)
    requires Aligned(p, b)
    ensures var ptr := PayloadStart(p, b, alignLog);
            && b + H(p) <= ptr <= b + MaxOverhead(p, alignLog)
            && ptr % Pow2(alignLog) == 0
            && (if alignLog < p.gl then ptr == b + H(p) else b + G(p) <= ptr <= b + Pow2(alignLog))
  {
    hide RoundUp, Pow2, Aligned, G, H;
    if alignLog < p.gl {
      SmallAlignment(p, alignLog);
      HalfIsMultiple(p, b, alignLog);
      RoundUpFix(b + H(p), Pow2(alignLog));
    } else {
      LargeAlignment(p, b, alignLog);
    }
  }

  /** The overhead that the search size reserves is really needed, in the worst place for a block. */
  lemma OverheadOccurs(p: Params, alignLog: nat)
    ensures exists b :: 0 < b && Aligned(p, b) && PayloadStart(p, b, alignLog) == b + MaxOverhead(p, alignLog)
  {
    hide RoundUp, Pow2, Aligned, G, H;
    SmallAlignment(p, alignLog);
    if alignLog < p.gl {
      GranuleAligned(p);
      PayloadStartOk(p, G(p), alignLog);
      assert 0 < G(p) && Aligned(p, G(p)) && PayloadStart(p, G(p), alignLog) == G(p) + MaxOverhead(p, alignLog);
    } else {
      var b := Pow2(alignLog);
      MultipleIs(1, b);
      MultipleAligned(p, b, alignLog);
      PayloadStartOk(p, b, alignLog);
      var q := PayloadStart(p, b, alignLog);
      MultipleDiff(b, q, b);
      assert 0 < b && Aligned(p, b) && q == b + MaxOverhead(p, alignLog);
    }
  }

  lemma SmallAlignment(p: Params, alignLog: nat)
    ensures Pow2(alignLog) <= H(p) <==> alignLog < p.gl
  {
    if alignLog < p.gl {
      Pow2Mono(alignLog, p.gl - 1);
    } else {
      Pow2Mono(p.gl - 1, alignLog);
    }
  }

  /** With an alignment of a granule or more, the payload starts a granule or more behind the header. */
  lemma LargeAlignment(p: Params, b: int, alignLog: nat)
    requires Aligned(p, b) && p.gl <= alignLog
    ensures var ptr := RoundUp(b + H(p), Pow2(alignLog));
            b + G(p) <= ptr <= b + Pow2(alignLog) && ptr % Pow2(alignLog) == 0 && Pow2(alignLog) > H(p)
  {
    hide RoundUp, Aligned, H;
    var align := Pow2(alignLog);
    var ptr, x := RoundUp(b + H(p), align), RoundUp(b + 1, align);
    SmallAlignment(p, alignLog);
    RoundUpProps(b + H(p), align);
    RoundUpProps(b + 1, align);
    MultipleAligned(p, ptr, alignLog);
    MultipleAligned(p, x, alignLog);
    AlignedApart(p, b, ptr);
    AlignedApart(p, b, x);
    RoundUpLeast(b + H(p), x, align);
  }

  lemma MultipleAligned(p: Params, x: int, alignLog: nat)
    requires p.gl <= alignLog && x % Pow2(alignLog) == 0
    ensures Aligned(p, x)
  {
    MultipleOfSmaller(x, p.gl, alignLog);
  }

  /** The address right behind a header is aligned to half a granule. */
  lemma HalfIsMultiple(p: Params, b: int, i: nat)
    requires Aligned(p, b) && i < p.gl
    ensures (b + H(p)) % Pow2(i) == 0
  {
    MultipleOfSmaller(b, p.gl - 1, p.gl);
    MultipleIs(1, H(p));
    MultipleDiff(b, H(p), H(p));
    MultipleOfSmaller(b + H(p), i, p.gl - 1);
  }

  // ----- allocate -----

  datatype Outcome = Fail | Done(heap: Heap, ptr: int)

  /** The first non-empty list at or after `c`, by looking at one list after the other. */
  function FirstFrom(p: Params, lists: Lists, c: Class): Option<Class>
    decreases p.fllen - c.fl, Sllen(p) - c.sl
  {
    if c.fl >= p.fllen then None
    else if c.sl >= Sllen(p) then FirstFrom(p, lists, Class(c.fl + 1, 0))
    else if c in lists && lists[c] != [] then Some(c)
    else FirstFrom(p, lists, Class(c.fl, c.sl + 1))
  }

  /** The free block chosen for a search size. */
  function Choose(p: Params, h: Heap, s: nat): Option<int>
    requires Granular(p, s)
  {
    match MapCeil(p, s)
    case None => None
    case Some(c) =>
      match FirstFrom(p, h.lists, c)
      case None => None
      case Some(d) => if d in h.lists && h.lists[d] != [] then Some(h.lists[d][0]) else None
  }

  /** Carve a used block out of the free block `b`. */
  function AllocateAt(p: Params, h: Heap, b: int, layout: Layout): Outcome
    requires Inv(p, h) && IsFree(h.blocks, b)
  {
    HasNext(p, h.pools, h.blocks, b);
    var hi := b + h.blocks[b].size;
    var ptr := PayloadStart(p, b, layout.alignLog);
    var mid := b + RoundUp(ptr - b + layout.size, G(p));
    if b < mid <= hi then Done(Reshape(p, h, b, mid, hi, Used(ptr, layout), [b]), ptr) else Fail
  }

  function Allocate(p: Params, h: Heap, layout: Layout): Outcome
    requires Inv(p, h)
  {
    match SearchSize(p, layout)
    case None => Fail
    case Some(s) =>
      BlockSizeOk(p, MaxOverhead(p, layout.alignLog), layout.size);
      match Choose(p, h, s)
      case None => Fail
      case Some(b) => if IsFree(h.blocks, b) then AllocateAt(p, h, b, layout) else Fail
  }

  // ----- deallocate -----

  /** The end of the free block that follows `b`, or else of `b` itself. */
  function FreeEnd(p: Params, h: Heap, b: int): (hi: int)
    requires Inv(p, h) && IsUsed(h.blocks, b)
    ensures b + h.blocks[b].size <= hi && hi in h.blocks && !IsFree(h.blocks, hi)
    ensures h.blocks[hi].pool == h.blocks[b].pool && b + h.blocks[b].size in h.blocks
  {
    HasNext(p, h.pools, h.blocks, b);
    assert BlockOk(p, h.pools, h.blocks, b);
    var n := b + h.blocks[b].size;
    if IsFree(h.blocks, n) then
      HasNext(p, h.pools, h.blocks, n);
      n + h.blocks[n].size
    else n
  }

  /** The free block that follows `b`, if there is one. */
  function NextFree(h: Heap, b: int): seq<int>
    requires b in h.blocks
  {
    if IsFree(h.blocks, b + h.blocks[b].size) then [b + h.blocks[b].size] else []
  }

  /** The free block that precedes `b`, if there is one. */
  function PrevFree(h: Heap, b: int): seq<int>
    requires b in h.blocks
  {
    if IsFree(h.blocks, h.blocks[b].prev) then [h.blocks[b].prev] else []
  }

  function Deallocate(p: Params, h: Heap, b: int): Heap
    requires Inv(p, h) && IsUsed(h.blocks, b)
  {
    var hi := FreeEnd(p, h, b);
    assert BlockOk(p, h.pools, h.blocks, b);
    assert BlockOk(p, h.pools, h.blocks, h.blocks[b].prev);
    assert BlockOk(p, h.pools, h.blocks, 0);
    var lo := if IsFree(h.blocks, h.blocks[b].prev) then h.blocks[b].prev else b;
    Reshape(p, h, lo, hi, hi, Free, NextFree(h, b) + PrevFree(h, b))
  }

  // ----- reallocate -----

  /**
   Resize the used block `b` where it is: shrink it, grow it into the following free block, or move it
   down into the preceding free block.
   */
  function ReallocateInplace(p: Params, h: Heap, b: int, layout: Layout): Outcome
    requires Inv(p, h) && IsUsed(h.blocks, b)
  {
    var k := h.blocks[b];
    var n, hi := b + k.size, FreeEnd(p, h, b);
    assert BlockOk(p, h.pools, h.blocks, b);
    match BlockSize(p, k.kind.ptr - b, layout.size)
    case None => Fail
    case Some(size) =>
      BlockSizeOk(p, k.kind.ptr - b, layout.size);
      if size == k.size then Done(Reshape(p, h, b, n, n, Used(k.kind.ptr, layout), []), k.kind.ptr)
      else if size < k.size || (IsFree(h.blocks, n) && size - k.size <= h.blocks[n].size) then
        Done(Reshape(p, h, b, b + size, hi, Used(k.kind.ptr, layout), NextFree(h, b)), k.kind.ptr)
      else if IsFree(h.blocks, k.prev) then MoveDown(p, h, b, layout)
      else Fail
  }

  /** Move the used block `b` to the start of the free block before it, if the new size fits. */
  function MoveDown(p: Params, h: Heap, b: int, layout: Layout): Outcome
    requires Inv(p, h) && IsUsed(h.blocks, b) && IsFree(h.blocks, h.blocks[b].prev)
  {
    assert BlockOk(p, h.pools, h.blocks, 0);
    HasPrev(p, h.pools, h.blocks, b);
    assert BlockOk(p, h.pools, h.blocks, h.blocks[b].prev);
    var lo, hi := h.blocks[b].prev, FreeEnd(p, h, b);
    PayloadStartOk(p, lo, layout.alignLog);
    var ptr := PayloadStart(p, lo, layout.alignLog);
    match BlockSize(p, ptr - lo, layout.size)
    case None => Fail
    case Some(size) =>
      BlockSizeOk(p, ptr - lo, layout.size);
      if size > hi - lo then Fail
      else Done(Reshape(p, h, lo, lo + size, hi, Used(ptr, layout), [lo] + NextFree(h, b)), ptr)
  }

  // ----- new pools -----

  function Chunk(p: Params, size: int): int {
    match MaxPoolSize(p)
    case Some(m) => if size < m then size else m
    case None => size
  }

  /** The blocks of the back-to-back pools that are cut out of `[start, start + size)`. */
  function ChunkBlocks(p: Params, start: int, size: int): Tiling
    decreases size
  {
    var c := Chunk(p, size);
    if size < 2 * G(p) || c < 2 * G(p) then map[]
    else
      ChunkBlocks(p, start + c, size - c)
      [start := Block(c - G(p), Free, 0, start)]
      [start + c - G(p) := Block(G(p), Sentinel, start, start)]
  }

  function ChunkPools(p: Params, start: int, size: int): Pools
    decreases size
  {
    var c := Chunk(p, size);
    if size < 2 * G(p) || c < 2 * G(p) then map[]
    else ChunkPools(p, start + c, size - c)[start := start + c]
  }

  function ChunkLists(p: Params, lists: Lists, start: int, size: int): Lists
    decreases size
  {
    var c := Chunk(p, size);
    if size < 2 * G(p) || c < 2 * G(p) then lists
    else ChunkLists(p, Link(p, lists, start, c - G(p)), start + c, size - c)
  }

  /** How many of `size` bytes end up in pools. */
  function ChunkedLength(p: Params, size: int): int
    decreases size
  {
    var c := Chunk(p, size);
    if size < 2 * G(p) || c < 2 * G(p) then 0
    else c + ChunkedLength(p, size - c)
  }

  function InsertAligned(p: Params, h: Heap, start: int, size: int): Heap {
    Heap(h.blocks + ChunkBlocks(p, start, size),
         h.pools + ChunkPools(p, start, size),
         ChunkLists(p, h.lists, start, size))
  }

  /** Insert arbitrary memory: whatever is left of it after rounding, unless that is too small. */
  function InsertPtr(p: Params, h: Heap, start: int, len: int): Heap {
    var pad := RoundUp(start, G(p)) - start;
    if len - pad < 2 * G(p) then h else InsertAligned(p, h, start + pad, RoundDown(len - pad, G(p)))
  }

  /** How many bytes of that memory are taken, counted from its beginning. */
  function InsertedLength(p: Params, start: int, len: int): int {
    var pad := RoundUp(start, G(p)) - start;
    if len - pad < 2 * G(p) then 0 else pad + ChunkedLength(p, RoundDown(len - pad, G(p)))
  }

  /** A single pool. */
  function AddPool(p: Params, h: Heap, start: int, size: int): Heap {
    Heap(h.blocks[start := Block(size - G(p), Free, 0, start)]
                 [start + size - G(p) := Block(G(p), Sentinel, start, start)],
         h.pools[start := start + size],
         Link(p, h.lists, start, size - G(p)))
  }

  /**
   Extend the pool that ends at `start` by `len` bytes: its sentinel and a free block before the
   sentinel become part of one new free block.
   */
  function Extend(p: Params, h: Heap, start: int, len: int): Heap
    requires start - G(p) in h.blocks
  {
    var cap := start - G(p);
    var pen := h.blocks[cap].prev;
    var lo := if IsFree(h.blocks, pen) then pen else cap;
    var q := h.blocks[cap].pool;
    var last := start + len - G(p);
    var lists := if IsFree(h.blocks, pen) then Unlink(p, h.lists, pen, h.blocks[pen].size) else h.lists;
    Heap((map a | a in h.blocks && !(lo <= a < start) :: h.blocks[a])
         [lo := Block(last - lo, Free, h.blocks[lo].prev, q)]
         [last := Block(G(p), Sentinel, lo, q)],
         h.pools[q := start + len],
         Link(p, lists, lo, last - lo))
  }

  function Append(p: Params, h: Heap, start: int, len: int): Heap
    requires start - G(p) in h.blocks
  {
    var n := RoundDown(len, G(p));
    if MaxPoolSize(p).Some? then InsertAligned(p, h, start, n)
    else if n == 0 then h
    else Extend(p, h, start, n)
  }

  function AppendedLength(p: Params, len: int): int {
    var n := RoundDown(len, G(p));
    if MaxPoolSize(p).Some? then ChunkedLength(p, n) else n
  }

  // ----- every operation keeps the invariant -----

  lemma {:induction false} FirstFromIs(p: Params, lists: Lists, c: Class, e: Class)
    requires e in lists && lists[e] != [] && Leq(c, e) && ValidClass(p, e)
    ensures FirstFrom(p, lists, c).Some? && Leq(FirstFrom(p, lists, c).value, e)
    decreases p.fllen - c.fl, Sllen(p) - c.sl
  {
    if c.sl >= Sllen(p) {
      FirstFromIs(p, lists, Class(c.fl + 1, 0), e);
    } else if !(c in lists && lists[c] != []) {
      FirstFromIs(p, lists, Class(c.fl, c.sl + 1), e);
    }
  }

  lemma {:induction false} FirstFromFound(p: Params, lists: Lists, c: Class)
    requires FirstFrom(p, lists, c).Some?
    ensures var d := FirstFrom(p, lists, c).value;
            d in lists && lists[d] != [] && Leq(c, d) && ValidClass(p, d)
    decreases p.fllen - c.fl, Sllen(p) - c.sl
  {
    if c.sl >= Sllen(p) {
      FirstFromFound(p, lists, Class(c.fl + 1, 0));
    } else if !(c in lists && lists[c] != []) {
      FirstFromFound(p, lists, Class(c.fl, c.sl + 1));
    }
  }

  /** The chosen block is the first of its list and large enough. */
  lemma ChooseOk(p: Params, h: Heap, s: nat)
    requires Inv(p, h) && Granular(p, s) && Choose(p, h, s).Some?
    ensures var b := Choose(p, h, s).value;
            IsFree(h.blocks, b) && s <= h.blocks[b].size
  {
    hide MapCeil, FirstFrom, TilingOk, MapFloor;
    var c := MapCeil(p, s).value;
    FirstFromFound(p, h.lists, c);
    var d := FirstFrom(p, h.lists, c).value;
    var b := h.lists[d][0];
    assert ListOk(p, h.lists, FreeBlocks(h.blocks), d);
    assert b in h.lists[d];
    assert ListOf(p, h.blocks[b].size) == Some(d);
    SearchIsSound(p, s, h.blocks[b].size);
  }

  lemma AllocateAtOk(p: Params, h: Heap, b: int, layout: Layout)
    requires Inv(p, h) && IsFree(h.blocks, b)
    requires SearchSize(p, layout).Some? && SearchSize(p, layout).value <= h.blocks[b].size
    ensures var ptr := PayloadStart(p, b, layout.alignLog);
            var mid := b + RoundUp(ptr - b + layout.size, G(p));
            && AllocateAt(p, h, b, layout).Done?
            && CanReshape(p, h, b, mid, b + h.blocks[b].size, Used(ptr, layout), [b])
            && Inv(p, AllocateAt(p, h, b, layout).heap)
  {
    hide RoundUp, Aligned, G, H, Reshape, ListsOk, MaxOverhead, Apart, Pow2, PayloadStart, BlockSize;
    var hi := b + h.blocks[b].size;
    assert BlockOk(p, h.pools, h.blocks, b);
    HasNext(p, h.pools, h.blocks, b);
    PayloadStartOk(p, b, layout.alignLog);
    BlockSizeIs(p, MaxOverhead(p, layout.alignLog), layout.size);
    var ptr := PayloadStart(p, b, layout.alignLog);
    RoundUpMono(ptr - b + layout.size, MaxOverhead(p, layout.alignLog) + layout.size, G(p));
    RoundUpAligned(p, ptr - b + layout.size);
    var mid := b + RoundUp(ptr - b + layout.size, G(p));
    AlignedApart(p, b, RoundUp(ptr - b + layout.size, G(p)));
    forall x
      ensures x in [b] <==> b <= x < hi && IsFree(h.blocks, x)
    {
      if b <= x < hi && x in h.blocks {
        NothingBetween(p, h.pools, h.blocks, b, x);
      }
    }
    ReshapeOk(p, h, b, mid, hi, Used(ptr, layout), [b]);
  }

  /** The unchecked additions of an allocation do not overflow, in the order in which they are made. */
  lemma AllocateNoOverflow(p: Params, h: Heap, b: int, layout: Layout)
    requires Inv(p, h) && IsFree(h.blocks, b)
    requires SearchSize(p, layout).Some? && SearchSize(p, layout).value <= h.blocks[b].size
    ensures var ptr := PayloadStart(p, b, layout.alignLog);
            && h.blocks[b].size + b <= Top(p)
            && b + H(p) + (Pow2(layout.alignLog) - 1) < Top(p)
            && 0 <= ptr - b && ptr - b + layout.size + G(p) < Top(p)
            && 0 < b
  {
    hide Aligned, PayloadOk, ListsOk, G, H, Pow2, PayloadStart, Apart;
    var k := h.blocks[b];
    assert BlockOk(p, h.pools, h.blocks, b);
    assert BlockOk(p, h.pools, h.blocks, b + k.size);
    assert PoolOk(p, h.pools, h.blocks, k.pool);
    PayloadStartOk(p, b, layout.alignLog);
    BlockSizeOk(p, MaxOverhead(p, layout.alignLog), layout.size);
  }

  /** The masks compute the rounded values. */
  lemma RoundingIs(p: Params, b: int, alignLog: nat, x: int)
    ensures p.gl <= p.w
    ensures RoundDown(b + H(p) + (Pow2(alignLog) - 1), Pow2(alignLog)) == PayloadStart(p, b, alignLog)
    ensures RoundDown(x + (G(p) - 1), Pow2(p.gl)) == RoundUp(x, G(p))
  {
    hide RoundDown, Pow2, H;
    WidthExceeds(p);
  }

  /** Where the pieces of a recut range and the blocks around it are. */
  lemma ReshapePlan(p: Params, h: Heap, lo: int, mid: int, hi: int, kind: Kind, drop: seq<int>)
    requires Inv(p, h) && CanReshape(p, h, lo, mid, hi, kind, drop) && kind.Used?
    ensures 0 < lo && lo + G(p) <= mid && (mid == hi || mid + G(p) <= hi) && hi <= Top(p)
    ensures lo + H(p) <= kind.ptr && kind.ptr + kind.layout.size <= mid
    ensures p.gl <= kind.layout.alignLog ==> lo < kind.ptr - H(p) < mid
    ensures mid < hi ==> ListOf(p, hi - mid).Some?
    ensures forall x :: x in FreeBlocks(h.blocks) && x !in drop ==> x + G(p) <= lo || hi <= x
    ensures !IsFree(h.blocks, lo - H(p)) && !IsFree(h.blocks, hi - H(p))
  {
    hide Inv, ListOf, G, H, Pow2, Aligned;
    RestIsBlock(p, h, lo, mid, hi, kind, drop);
    forall x | x in FreeBlocks(h.blocks) && x !in drop
      ensures x + G(p) <= lo || hi <= x
    {
      OthersOutside(p, h, lo, mid, hi, kind, drop, x);
    }
    NotHalfway(p, h, lo);
    NotHalfway(p, h, hi);
  }

  /** The same for a range that becomes one free block. */
  lemma MergePlan(p: Params, h: Heap, lo: int, hi: int, drop: seq<int>)
    requires Inv(p, h) && CanReshape(p, h, lo, hi, hi, Free, drop)
    ensures 0 < lo && lo + G(p) <= hi && ListOf(p, hi - lo).Some?
    ensures forall x :: x in FreeBlocks(h.blocks) && x !in drop ==> x + G(p) <= lo || hi <= x
    ensures !IsFree(h.blocks, lo - H(p)) && !IsFree(h.blocks, hi - H(p))
  {
    hide Inv, ListOf, G, H, Pow2, Aligned;
    RestIsBlock(p, h, lo, hi, hi, Free, drop);
    forall x | x in FreeBlocks(h.blocks) && x !in drop
      ensures x + G(p) <= lo || hi <= x
    {
      OthersOutside(p, h, lo, hi, hi, Free, drop, x);
    }
    NotHalfway(p, h, lo);
    NotHalfway(p, h, hi);
  }

  lemma UnlinkAllIs(p: Params, lists: Lists, bs: Tiling, x: int, y: int)
    requires x in bs && y in bs
    ensures UnlinkAll(p, lists, bs, []) == lists
    ensures UnlinkAll(p, lists, bs, [x]) == Unlink(p, lists, x, bs[x].size)
    ensures UnlinkAll(p, lists, bs, [x, y]) == Unlink(p, Unlink(p, lists, x, bs[x].size), y, bs[y].size)
  {
    hide Unlink;
    assert [x][1..] == [] && [x, y][1..] == [y];
    var l := Unlink(p, lists, x, bs[x].size);
    assert UnlinkAll(p, l, bs, [y]) == Unlink(p, l, y, bs[y].size);
  }

  lemma {:induction false} UnlinkAllLast(p: Params, lists: Lists, bs: Tiling, drop: seq<int>, x: int)
    requires x in bs && forall i :: 0 <= i < |drop| ==> drop[i] in bs
    ensures UnlinkAll(p, lists, bs, drop + [x]) == Unlink(p, UnlinkAll(p, lists, bs, drop), x, bs[x].size)
    decreases drop
  {
    hide Unlink;
    if drop == [] {
      assert ([] + [x])[1..] == [];
    } else {
      assert (drop + [x])[1..] == drop[1..] + [x];
      UnlinkAllLast(p, Unlink(p, lists, drop[0], bs[drop[0]].size), bs, drop[1..], x);
    }
  }

  lemma NotHalfway(p: Params, h: Heap, a: int)
    requires Inv(p, h) && a in h.blocks
    ensures a - H(p) !in h.blocks
  {
    hide Aligned, PayloadOk, ListsOk, G, H;
    assert BlockOk(p, h.pools, h.blocks, a - H(p));
    assert Apart(h.blocks, a - H(p), a);
  }

  /** Allocation carves the first block of the list that the scan finds, and fails exactly when it finds none. */
  lemma AllocateIs(p: Params, h: Heap, layout: Layout)
    requires Inv(p, h)
    ensures SearchSize(p, layout).Some? ==> Granular(p, SearchSize(p, layout).value)
    ensures var s := SearchSize(p, layout);
            if s.None? || MapCeil(p, s.value).None? || FirstFrom(p, h.lists, MapCeil(p, s.value).value).None? then
              Allocate(p, h, layout).Fail?
            else
              var c := FirstFrom(p, h.lists, MapCeil(p, s.value).value).value;
              && c in h.lists && h.lists[c] != []
              && var b := h.lists[c][0];
              && IsFree(h.blocks, b) && s.value <= h.blocks[b].size
              && Allocate(p, h, layout) == AllocateAt(p, h, b, layout)
  {
    hide Inv, SearchSize, MapCeil, FirstFrom, AllocateAt, Granular;
    if SearchSize(p, layout).Some? {
      BlockSizeSearch(p, layout);
      var s := SearchSize(p, layout).value;
      if MapCeil(p, s).Some? && FirstFrom(p, h.lists, MapCeil(p, s).value).Some? {
        FirstFromFound(p, h.lists, MapCeil(p, s).value);
        ChooseOk(p, h, s);
      }
    }
  }

  lemma RoundUpAligned(p: Params, x: int)
    ensures Aligned(p, RoundUp(x, G(p))) && x <= RoundUp(x, G(p)) < x + G(p)
  {
    RoundUpProps(x, G(p));
  }

  lemma AllocateOk(p: Params, h: Heap, layout: Layout)
    requires Inv(p, h) && Allocate(p, h, layout).Done?
    ensures Inv(p, Allocate(p, h, layout).heap)
  {
    hide Inv, SearchSize, Choose, AllocateAt, Granular;
    BlockSizeSearch(p, layout);
    var s := SearchSize(p, layout).value;
    ChooseOk(p, h, s);
    AllocateAtOk(p, h, Choose(p, h, s).value, layout);
  }

  lemma BlockSizeSearch(p: Params, layout: Layout)
    requires SearchSize(p, layout).Some?
    ensures Granular(p, SearchSize(p, layout).value)
  {
    BlockSizeOk(p, MaxOverhead(p, layout.alignLog), layout.size);
  }

  /** The blocks between the free neighbours of a used block are these neighbours and the block itself. */
  lemma Neighbourhood(p: Params, h: Heap, b: int, x: int)
    requires Inv(p, h) && IsUsed(h.blocks, b)
    ensures var lo := if IsFree(h.blocks, h.blocks[b].prev) then h.blocks[b].prev else b;
            (x in h.blocks && lo <= x < FreeEnd(p, h, b)) ==> x in PrevFree(h, b) || x == b || x in NextFree(h, b)
  {
    hide Aligned, PayloadOk, ListsOk;
    assert BlockOk(p, h.pools, h.blocks, b);
    assert BlockOk(p, h.pools, h.blocks, 0);
    assert BlockOk(p, h.pools, h.blocks, h.blocks[b].prev);
    assert Apart(h.blocks, h.blocks[b].prev, x);
    assert Apart(h.blocks, b, x);
    assert Apart(h.blocks, b + h.blocks[b].size, x);
  }

  lemma DeallocateReshapes(p: Params, h: Heap, b: int)
    requires Inv(p, h) && IsUsed(h.blocks, b)
    ensures var lo := if IsFree(h.blocks, h.blocks[b].prev) then h.blocks[b].prev else b;
            && lo < FreeEnd(p, h, b)
            && CanReshape(p, h, lo, FreeEnd(p, h, b), FreeEnd(p, h, b), Free, NextFree(h, b) + PrevFree(h, b))
  {
    hide Aligned, PayloadOk, ListsOk;
    var hi, q := FreeEnd(p, h, b), h.blocks[b].prev;
    var lo := if IsFree(h.blocks, q) then q else b;
    assert BlockOk(p, h.pools, h.blocks, b);
    assert BlockOk(p, h.pools, h.blocks, 0);
    assert BlockOk(p, h.pools, h.blocks, hi);
    if IsFree(h.blocks, q) {
      assert BlockOk(p, h.pools, h.blocks, q);
      assert BlockOk(p, h.pools, h.blocks, h.blocks[q].prev);
    }
    forall x
      ensures x in NextFree(h, b) + PrevFree(h, b) <==> lo <= x < hi && IsFree(h.blocks, x)
    {
      Neighbourhood(p, h, b, x);
    }
  }

  lemma DeallocateOk(p: Params, h: Heap, b: int)
    requires Inv(p, h) && IsUsed(h.blocks, b)
    ensures Inv(p, Deallocate(p, h, b))
  {
    hide Inv, CanReshape, Reshape, FreeEnd;
    DeallocateReshapes(p, h, b);
    var lo := if IsFree(h.blocks, h.blocks[b].prev) then h.blocks[b].prev else b;
    ReshapeOk(p, h, lo, FreeEnd(p, h, b), FreeEnd(p, h, b), Free, NextFree(h, b) + PrevFree(h, b));
  }

  /** Resizing without moving: the block keeps its start and takes what it needs up to the next used block. */
  lemma ResizeReshapes(p: Params, h: Heap, b: int, layout: Layout, size: nat)
    requires Inv(p, h) && IsUsed(h.blocks, b) && layout.alignLog == h.blocks[b].kind.layout.alignLog
    requires h.blocks[b].kind.ptr >= b
    requires BlockSize(p, h.blocks[b].kind.ptr - b, layout.size) == Some(size)
    ensures var k := h.blocks[b]; var hi := FreeEnd(p, h, b);
            && 0 < size
            && (size == k.size ==> CanReshape(p, h, b, b + size, b + size, Used(k.kind.ptr, layout), []))
            && (size <= hi - b ==> CanReshape(p, h, b, b + size, hi, Used(k.kind.ptr, layout), NextFree(h, b)))
  {
    hide Aligned, ListsOk, Pow2, G, H, PoolOk, PoolsApart, Apart, RoundUp, FreeEnd;
    var k := h.blocks[b];
    var hi := FreeEnd(p, h, b);
    assert BlockOk(p, h.pools, h.blocks, b);
    assert BlockOk(p, h.pools, h.blocks, k.prev);
    BlockSizeOk(p, k.kind.ptr - b, layout.size);
    AlignedApart(p, b, size);
    forall x
      ensures x in NextFree(h, b) <==> b <= x < hi && IsFree(h.blocks, x)
    {
      Neighbourhood(p, h, b, x);
    }
    forall x
      ensures !(b <= x < b + k.size && IsFree(h.blocks, x))
    {
      Neighbourhood(p, h, b, x);
    }
  }

  /** Moving down: the used block takes the start of the free block before it. */
  lemma MoveReshapes(p: Params, h: Heap, b: int, layout: Layout)
    requires Inv(p, h) && IsUsed(h.blocks, b) && IsFree(h.blocks, h.blocks[b].prev)
    requires MoveDown(p, h, b, layout).Done?
    ensures var lo, hi := h.blocks[b].prev, FreeEnd(p, h, b);
            var ptr := PayloadStart(p, lo, layout.alignLog);
            && ptr >= lo && BlockSize(p, ptr - lo, layout.size).Some?
            && var size := BlockSize(p, ptr - lo, layout.size).value;
            && 0 < size <= hi - lo
            && CanReshape(p, h, lo, lo + size, hi, Used(ptr, layout), [lo] + NextFree(h, b))
  {
    hide Aligned, ListsOk, Pow2, G, H, PayloadStart, Reshape, BlockSize, Granular;
    var lo, hi := h.blocks[b].prev, FreeEnd(p, h, b);
    assert BlockOk(p, h.pools, h.blocks, 0);
    assert BlockOk(p, h.pools, h.blocks, b);
    assert BlockOk(p, h.pools, h.blocks, lo);
    PayloadStartOk(p, lo, layout.alignLog);
    var ptr := PayloadStart(p, lo, layout.alignLog);
    BlockSizeOk(p, ptr - lo, layout.size);
    var size := BlockSize(p, ptr - lo, layout.size).value;
    AlignedApart(p, lo, size);
    forall x
      ensures x in [lo] + NextFree(h, b) <==> lo <= x < hi && IsFree(h.blocks, x)
    {
      Neighbourhood(p, h, b, x);
    }
  }

  /**
   The payload start in a block further down can be computed without overflow, and does not lie behind the old one.
   */
  lemma MoveNoOverflow(p: Params, h: Heap, b: int, lo: int)
    requires Inv(p, h) && IsUsed(h.blocks, b) && 0 < lo < b && Aligned(p, lo)
    requires h.blocks[b].kind.layout.alignLog < p.w
    ensures var k := h.blocks[b].kind;
            && lo + H(p) + Pow2(k.layout.alignLog) < Top(p)
            && lo + H(p) <= PayloadStart(p, lo, k.layout.alignLog) <= k.ptr
            && 0 < FreeEnd(p, h, b) - lo < Top(p)
  {
    hide ListsOk, Apart, RoundUp, Aligned, H, G;
    var k := h.blocks[b];
    var align := Pow2(k.kind.layout.alignLog);
    assert BlockOk(p, h.pools, h.blocks, b);
    assert BlockOk(p, h.pools, h.blocks, b + k.size);
    assert PoolOk(p, h.pools, h.blocks, k.pool);
    RoundUpProps(lo + H(p), align);
    RoundUpLeast(lo + H(p), k.kind.ptr, align);
    TopIsMultiple(p, k.kind.layout.alignLog);
    MultipleDiff(k.kind.ptr, Top(p), align);
    EndIs(p, h, b);
  }

  /** What moving down computes. */
  lemma MovePlan(p: Params, h: Heap, b: int, layout: Layout)
    requires Inv(p, h) && IsUsed(h.blocks, b) && IsFree(h.blocks, h.blocks[b].prev)
    requires layout.alignLog == h.blocks[b].kind.layout.alignLog < p.w
    ensures var lo := h.blocks[b].prev;
            var ptr := PayloadStart(p, lo, layout.alignLog);
            && 0 < lo < b && lo + h.blocks[lo].size == b
            && 0 <= lo + H(p) + (Pow2(layout.alignLog) - 1) && lo + H(p) + Pow2(layout.alignLog) < Top(p)
            && RoundDown(lo + H(p) + (Pow2(layout.alignLog) - 1), Pow2(layout.alignLog)) == ptr
            && lo < lo + H(p) <= ptr <= h.blocks[b].kind.ptr
            && (BlockSize(p, ptr - lo, layout.size).Some? ==> 0 < BlockSize(p, ptr - lo, layout.size).value)
            && MoveDown(p, h, b, layout) ==
               match BlockSize(p, ptr - lo, layout.size)
               case None => Fail
               case Some(size) =>
                 if size > FreeEnd(p, h, b) - lo then Fail
                 else
                   Done(Reshape(p, h, lo, lo + size, FreeEnd(p, h, b), Used(ptr, layout), [lo] + NextFree(h, b)), ptr)
  {
    hide ListsOk, Apart, RoundUp, RoundDown, Aligned, G, H, Pow2, BlockSize, Reshape, FreeEnd, PayloadStart, TilingOk;
    NoBlockAtNull(p, h);
    HasPrev(p, h.pools, h.blocks, b);
    var lo := h.blocks[b].prev;
    AlignedBlock(p, h, lo);
    MoveNoOverflow(p, h, b, lo);
    RoundingIs(p, lo, layout.alignLog, 0);
    var ptr := PayloadStart(p, lo, layout.alignLog);
    if BlockSize(p, ptr - lo, layout.size).Some? {
      BlockSizeOk(p, ptr - lo, layout.size);
    }
  }

  lemma NoBlockAtNull(p: Params, h: Heap)
    requires Inv(p, h)
    ensures 0 !in h.blocks
  {
    assert BlockOk(p, h.pools, h.blocks, 0);
  }

  lemma AlignedBlock(p: Params, h: Heap, b: int)
    requires Inv(p, h) && b in h.blocks
    ensures 0 < b && Aligned(p, b) && Aligned(p, h.blocks[b].size)
  {
    assert BlockOk(p, h.pools, h.blocks, b);
  }

  lemma TopIsMultiple(p: Params, i: nat)
    requires i < p.w
    ensures Top(p) % Pow2(i) == 0
  {
    Pow2Add(p.w - i, i);
    MultipleIs(Pow2(p.w - i), Pow2(i));
  }

  lemma ReallocateInplaceOk(p: Params, h: Heap, b: int, layout: Layout)
    requires Inv(p, h) && IsUsed(h.blocks, b) && layout.alignLog == h.blocks[b].kind.layout.alignLog
    requires ReallocateInplace(p, h, b, layout).Done?
    ensures Inv(p, ReallocateInplace(p, h, b, layout).heap)
  {
    hide CanReshape, Reshape, TilingOk, ListsOk, BlockSize, PayloadStart, Granular, Aligned, G, H;
    var k := h.blocks[b];
    var hi := FreeEnd(p, h, b);
    PayloadBehind(p, h, b);
    BlockSizeOk(p, k.kind.ptr - b, layout.size);
    var size := BlockSize(p, k.kind.ptr - b, layout.size).value;
    ResizeReshapes(p, h, b, layout, size);
    if size == k.size {
      ReshapeOk(p, h, b, b + size, b + size, Used(k.kind.ptr, layout), []);
    } else if size < k.size || (IsFree(h.blocks, b + k.size) && size - k.size <= h.blocks[b + k.size].size) {
      ReshapeOk(p, h, b, b + size, hi, Used(k.kind.ptr, layout), NextFree(h, b));
    } else {
      MoveReshapes(p, h, b, layout);
      var ptr := PayloadStart(p, k.prev, layout.alignLog);
      var size2 := BlockSize(p, ptr - k.prev, layout.size).value;
      ReshapeOk(p, h, k.prev, k.prev + size2, hi, Used(ptr, layout), [k.prev] + NextFree(h, b));
    }
  }

  /** The branches of a resize in place. */
  lemma InplaceCases(p: Params, h: Heap, b: int, layout: Layout)
    requires Inv(p, h) && IsUsed(h.blocks, b)
    ensures var k, n := h.blocks[b], b + h.blocks[b].size;
            && k.kind.ptr >= b && n in h.blocks
            && (ReallocateInplace(p, h, b, layout).Fail? ==> n < k.kind.ptr + layout.size)
            && match BlockSize(p, k.kind.ptr - b, layout.size)
               case None => ReallocateInplace(p, h, b, layout).Fail?
               case Some(size) =>
                 && 0 < size
                 && (size == k.size ==>
                       ReallocateInplace(p, h, b, layout) ==
                       Done(Reshape(p, h, b, n, n, Used(k.kind.ptr, layout), []), k.kind.ptr))
                 && (size != k.size && (size < k.size || (IsFree(h.blocks, n) && size - k.size <= h.blocks[n].size)) ==>
                       && size <= FreeEnd(p, h, b) - b
                       && ReallocateInplace(p, h, b, layout) ==
                          Done(Reshape(p, h, b, b + size, FreeEnd(p, h, b), Used(k.kind.ptr, layout), NextFree(h, b)),
                               k.kind.ptr))
                 && (k.size < size ==> n < k.kind.ptr + layout.size)
                 && (k.size < size && !(IsFree(h.blocks, n) && size - k.size <= h.blocks[n].size) ==>
                       ReallocateInplace(p, h, b, layout) ==
                         if IsFree(h.blocks, k.prev) then MoveDown(p, h, b, layout) else Fail)
  {
    hide Reshape, TilingOk, ListsOk, BlockSize, PayloadStart, G, H, MoveDown, Pow2;
    var k := h.blocks[b];
    PayloadBehind(p, h, b);
    HasNext(p, h.pools, h.blocks, b);
    if ReallocateInplace(p, h, b, layout).Fail? {
      FallbackIsLarger(p, h, b, layout);
    }
    if BlockSize(p, k.kind.ptr - b, layout.size).Some? {
      BlockSizeOk(p, k.kind.ptr - b, layout.size);
      GrowthIsReal(p, h, b, layout);
    }
  }

  /** Where the payload of `b` can go without leaving the free space around it. */
  function LowestStart(p: Params, h: Heap, b: int, alignLog: nat): int
    requires IsUsed(h.blocks, b)
  {
    if IsFree(h.blocks, h.blocks[b].prev) then PayloadStart(p, h.blocks[b].prev, alignLog) else h.blocks[b].kind.ptr
  }

  /**
   A resize in place succeeds exactly when the requested bytes fit between the lowest possible start of the
   payload and the end of the free space behind it. In particular an overflow of the size without a move means
   that moving does not help either.
   */
  lemma InplaceSucceedsIff(p: Params, h: Heap, b: int, layout: Layout)
    requires Inv(p, h) && IsUsed(h.blocks, b)
    requires layout.alignLog == h.blocks[b].kind.layout.alignLog < p.w
    ensures ReallocateInplace(p, h, b, layout).Done? <==>
            LowestStart(p, h, b, layout.alignLog) + layout.size <= FreeEnd(p, h, b)
  {
    hide Inv, Reshape, FreeEnd, BlockSize, PayloadStart, G, H, MoveDown, ReallocateInplace, Pow2;
    var k, hi := h.blocks[b], FreeEnd(p, h, b);
    InplaceCases(p, h, b, layout);
    EndIs(p, h, b);
    AlignedBlock(p, h, b);
    AlignedBlock(p, h, hi);
    BlockSizeFits(p, k.kind.ptr, b, layout.size, hi);
    if IsFree(h.blocks, k.prev) {
      var lo := k.prev;
      MovePlan(p, h, b, layout);
      AlignedBlock(p, h, lo);
      BlockSizeFits(p, PayloadStart(p, lo, layout.alignLog), lo, layout.size, hi);
      OverheadBelow(p, h, b, lo);
      if PayloadStart(p, lo, layout.alignLog) + layout.size <= hi {
        RoomInWord(p, h, b, lo, layout.size, hi);
      }
    }
  }

  /** The end of the free space behind a block, by the sizes of the blocks. */
  lemma EndIs(p: Params, h: Heap, b: int)
    requires Inv(p, h) && IsUsed(h.blocks, b)
    ensures var n, hi := b + h.blocks[b].size, FreeEnd(p, h, b);
            && n in h.blocks && 0 < b < n && hi == (if IsFree(h.blocks, n) then n + h.blocks[n].size else n)
            && hi + G(p) <= Top(p) && (IsFree(h.blocks, n) ==> 0 < h.blocks[n].size)
  {
    hide ListsOk, Apart, Aligned, H, PoolsApart, PayloadOk, G;
    var hi := FreeEnd(p, h, b);
    assert BlockOk(p, h.pools, h.blocks, b);
    assert BlockOk(p, h.pools, h.blocks, b + h.blocks[b].size);
    assert BlockOk(p, h.pools, h.blocks, hi);
    assert PoolOk(p, h.pools, h.blocks, h.blocks[b].pool);
  }

  /** The rounded size fits up to a block boundary exactly when the bytes do. */
  lemma BlockSizeFits(p: Params, ptr: int, b: int, size: nat, hi: int)
    requires 0 < b <= ptr && Aligned(p, b) && Aligned(p, hi) && hi + G(p) <= Top(p)
    ensures match BlockSize(p, ptr - b, size)
            case None => ptr + size > hi
            case Some(s) => s <= hi - b <==> ptr + size <= hi
  {
    hide Aligned, RoundUp, G, Top;
    AlignedApart(p, b, hi);
    match BlockSize(p, ptr - b, size)
    case None =>
      BlockSizeNone(p, ptr - b, size);
    case Some(s) =>
      BlockSizeOk(p, ptr - b, size);
      if ptr + size <= hi {
        RoundUpBelow(p, ptr - b + size, hi - b);
      }
  }

  lemma BlockSizeNone(p: Params, overhead: nat, size: nat)
    requires BlockSize(p, overhead, size).None?
    ensures overhead + size + (G(p) - 1) >= Top(p)
  {
  }

  lemma RoundUpBelow(p: Params, x: int, y: int)
    requires x <= y && Aligned(p, y)
    ensures RoundUp(x, G(p)) <= y
  {
    RoundUpLeast(x, y, G(p));
  }

  /** Header and padding of a used block are no larger than the address of any payload with its alignment. */
  lemma OverheadBelow(p: Params, h: Heap, b: int, lo: int)
    requires Inv(p, h) && IsUsed(h.blocks, b) && 0 < lo && Aligned(p, lo)
    ensures var k := h.blocks[b].kind;
            0 <= k.ptr - b <= PayloadStart(p, lo, k.layout.alignLog)
  {
    hide ListsOk, Apart, PoolOk, PoolsApart, Aligned, H, G, PayloadStart, Pow2;
    var k := h.blocks[b].kind;
    assert BlockOk(p, h.pools, h.blocks, b);
    PayloadStartOk(p, lo, k.layout.alignLog);
    var q := PayloadStart(p, lo, k.layout.alignLog);
    MultipleDiff(0, q, Pow2(k.layout.alignLog));
  }

  /** Bytes that fit after a move do not overflow without one. */
  lemma RoomInWord(p: Params, h: Heap, b: int, lo: int, size: nat, hi: int)
    requires Inv(p, h) && IsUsed(h.blocks, b) && 0 < lo && Aligned(p, lo) && hi + G(p) <= Top(p)
    requires PayloadStart(p, lo, h.blocks[b].kind.layout.alignLog) + size <= hi && h.blocks[b].kind.ptr >= b
    ensures BlockSize(p, h.blocks[b].kind.ptr - b, size).Some?
  {
    hide Inv, G, Top, PayloadStart, Aligned;
    OverheadBelow(p, h, b, lo);
  }

  /**
   Which pointer a reallocation returns: the old one if the bytes fit without a move, else the lowest possible one
   if they fit there, else that of an allocation, which decides whether it succeeds.
   */
  lemma ReallocatePointer(p: Params, h: Heap, b: int, layout: Layout)
    requires Inv(p, h) && IsUsed(h.blocks, b)
    requires layout.alignLog == h.blocks[b].kind.layout.alignLog < p.w
    ensures var ptr, low := h.blocks[b].kind.ptr, LowestStart(p, h, b, layout.alignLog);
            var hi, r := FreeEnd(p, h, b), Reallocate(p, h, b, layout);
            if ptr + layout.size <= hi then r.Done? && r.ptr == ptr
            else if low + layout.size <= hi then r.Done? && r.ptr == low
            else
              match Allocate(p, h, layout)
              case Fail => r.Fail?
              case Done(_, q) => r.Done? && r.ptr == q
  {
    hide Inv, Reshape, FreeEnd, BlockSize, PayloadStart, G, H, ReallocateInplace, Pow2, Allocate, Deallocate;
    InplaceSucceedsIff(p, h, b, layout);
    InplacePointer(p, h, b, layout);
  }

  /** The pointer that a resize in place returns. */
  lemma InplacePointer(p: Params, h: Heap, b: int, layout: Layout)
    requires Inv(p, h) && IsUsed(h.blocks, b)
    requires layout.alignLog == h.blocks[b].kind.layout.alignLog < p.w
    ensures var ptr, r := h.blocks[b].kind.ptr, ReallocateInplace(p, h, b, layout);
            && (ptr + layout.size <= FreeEnd(p, h, b) ==> r.Done? && r.ptr == ptr)
            && (ptr + layout.size > FreeEnd(p, h, b) && r.Done? ==> r.ptr == LowestStart(p, h, b, layout.alignLog))
  {
    hide Inv, Reshape, FreeEnd, BlockSize, PayloadStart, G, H, MoveDown, ReallocateInplace, Pow2;
    var k, hi := h.blocks[b], FreeEnd(p, h, b);
    InplaceCases(p, h, b, layout);
    EndIs(p, h, b);
    AlignedBlock(p, h, b);
    AlignedBlock(p, h, hi);
    BlockSizeFits(p, k.kind.ptr, b, layout.size, hi);
    if IsFree(h.blocks, k.prev) {
      MovePlan(p, h, b, layout);
    }
  }

  /** A block that must grow is too small for the requested bytes. */
  lemma GrowthIsReal(p: Params, h: Heap, b: int, layout: Layout)
    requires Inv(p, h) && IsUsed(h.blocks, b) && h.blocks[b].kind.ptr >= b
    requires BlockSize(p, h.blocks[b].kind.ptr - b, layout.size).Some?
    ensures h.blocks[b].size < BlockSize(p, h.blocks[b].kind.ptr - b, layout.size).value ==>
              b + h.blocks[b].size < h.blocks[b].kind.ptr + layout.size
  {
    hide TilingOk, ListsOk, BlockSize, G, H, Pow2, RoundUp;
    var k := h.blocks[b];
    BlockSizeOk(p, k.kind.ptr - b, layout.size);
    AlignedBlock(p, h, b);
    if k.kind.ptr - b + layout.size <= k.size {
      RoundUpLeast(k.kind.ptr - b + layout.size, k.size, G(p));
    }
  }

  lemma PayloadBehind(p: Params, h: Heap, b: int)
    requires Inv(p, h) && IsUsed(h.blocks, b)
    ensures 0 < b && b + H(p) <= h.blocks[b].kind.ptr
    ensures h.blocks[b].kind.ptr + h.blocks[b].kind.layout.size <= b + h.blocks[b].size
  {
    assert BlockOk(p, h.pools, h.blocks, b);
  }

  /** A used block is exactly as large as its header, its padding and its payload need, in whole granules. */
  lemma TightFit(p: Params, h: Heap, b: int)
    requires Inv(p, h) && IsUsed(h.blocks, b)
    ensures var k := h.blocks[b];
            k.size == RoundUp(k.kind.ptr - b + k.kind.layout.size, G(p))
  {
    hide ListsOk, Apart, PoolOk, PoolsApart, RoundUp, H, Pow2, G;
    assert BlockOk(p, h.pools, h.blocks, b);
    var k := h.blocks[b];
    var x := k.kind.ptr - b + k.kind.layout.size;
    RoundUpAligned(p, x);
    RoundUpBelow(p, x, k.size);
    AlignedApart(p, RoundUp(x, G(p)), k.size);
  }

  /** Giving up on resizing in place means that the new size exceeds what the block can hold. */
  lemma FallbackIsLarger(p: Params, h: Heap, b: int, layout: Layout)
    requires Inv(p, h) && IsUsed(h.blocks, b) && ReallocateInplace(p, h, b, layout).Fail?
    ensures b + h.blocks[b].size < h.blocks[b].kind.ptr + layout.size
  {
    hide Reshape, ListsOk, PayloadStart, Pow2, H, Apart;
    var k := h.blocks[b];
    assert BlockOk(p, h.pools, h.blocks, b);
    assert BlockOk(p, h.pools, h.blocks, b + k.size);
    assert PoolOk(p, h.pools, h.blocks, k.pool);
    if BlockSize(p, k.kind.ptr - b, layout.size).Some? {
      BlockSizeOk(p, k.kind.ptr - b, layout.size);
      if k.kind.ptr - b + layout.size <= k.size {
        RoundUpLeast(k.kind.ptr - b + layout.size, k.size, G(p));
      }
    }
  }

  /**
   When the size computed for a resize in place overflows, so does the search size of an allocation: the
   request fails wherever it is tried.
   */
  lemma OverflowIsFinal(p: Params, h: Heap, b: int, layout: Layout)
    requires Inv(p, h) && IsUsed(h.blocks, b) && layout.alignLog == h.blocks[b].kind.layout.alignLog
    requires h.blocks[b].kind.ptr >= b && BlockSize(p, h.blocks[b].kind.ptr - b, layout.size).None?
    ensures SearchSize(p, layout).None? && Reallocate(p, h, b, layout).Fail?
  {
    hide ListsOk, Apart, PoolOk, PoolsApart, Aligned, Pow2, G, H, MaskDown, MoveDown, Choose;
    assert BlockOk(p, h.pools, h.blocks, b);
    SmallAlignment(p, layout.alignLog);
  }

  /** Recutting a range leaves the blocks outside as they were, but for the predecessor of the block behind it. */
  lemma ReshapeKeepsBlock(p: Params, h: Heap, lo: int, mid: int, hi: int, kind: Kind, drop: seq<int>, b: int)
    requires Inv(p, h) && CanReshape(p, h, lo, mid, hi, kind, drop)
    requires b in h.blocks && !(lo <= b < hi)
    requires forall i :: 0 <= i < |drop| ==> drop[i] in h.blocks
    ensures var bs := Reshape(p, h, lo, mid, hi, kind, drop).blocks;
            b in bs && bs[b].kind == h.blocks[b].kind && bs[b].size == h.blocks[b].size
  {
    hide UnlinkAll, Link;
  }

  /** An allocation leaves every used block used. */
  lemma AllocateKeepsUsed(p: Params, h: Heap, layout: Layout, b: int)
    requires Inv(p, h) && Allocate(p, h, layout).Done? && IsUsed(h.blocks, b)
    ensures var bs := Allocate(p, h, layout).heap.blocks;
            b in bs && bs[b].kind == h.blocks[b].kind && bs[b].size == h.blocks[b].size
  {
    hide Inv, SearchSize, Choose, Granular, Reshape, CanReshape, PayloadStart, RoundUp;
    BlockSizeSearch(p, layout);
    var s := SearchSize(p, layout).value;
    ChooseOk(p, h, s);
    var x := Choose(p, h, s).value;
    AllocateAtOk(p, h, x, layout);
    AllocateAtKeeps(p, h, x, layout, b);
  }

  lemma AllocateAtKeeps(p: Params, h: Heap, x: int, layout: Layout, b: int)
    requires Inv(p, h) && IsFree(h.blocks, x) && IsUsed(h.blocks, b)
    requires SearchSize(p, layout).Some? && SearchSize(p, layout).value <= h.blocks[x].size
    ensures var r := AllocateAt(p, h, x, layout);
            && r.Done? && b in r.heap.blocks
            && r.heap.blocks[b].kind == h.blocks[b].kind && r.heap.blocks[b].size == h.blocks[b].size
  {
    hide ListsOk, TilingOk, SearchSize, Reshape, CanReshape, PayloadStart, RoundUp;
    AllocateAtOk(p, h, x, layout);
    var ptr, hi := PayloadStart(p, x, layout.alignLog), x + h.blocks[x].size;
    if x <= b < hi {
      NothingBetween(p, h.pools, h.blocks, x, b);
    }
    ReshapeOk(p, h, x, x + RoundUp(ptr - x + layout.size, G(p)), hi, Used(ptr, layout), [x]);
    ReshapeKeepsBlock(p, h, x, x + RoundUp(ptr - x + layout.size, G(p)), hi, Used(ptr, layout), [x], b);
  }

  /** The block that an allocation creates. */
  lemma AllocatedBlock(p: Params, h: Heap, layout: Layout)
    requires Inv(p, h) && Allocate(p, h, layout).Done?
    ensures var r := Allocate(p, h, layout);
            exists b :: IsFree(h.blocks, b) && IsUsed(r.heap.blocks, b) && r.heap.blocks[b].kind == Used(r.ptr, layout)
  {
    hide Inv, SearchSize, Choose, Granular, CanReshape, PayloadStart, RoundUp, UnlinkAll, Link;
    BlockSizeSearch(p, layout);
    var s := SearchSize(p, layout).value;
    ChooseOk(p, h, s);
    var b := Choose(p, h, s).value;
    assert IsFree(h.blocks, b) && IsUsed(Allocate(p, h, layout).heap.blocks, b);
  }

  /** Resize in place, or else allocate anew and free the old block. */
  function Reallocate(p: Params, h: Heap, b: int, layout: Layout): Outcome
    requires Inv(p, h) && IsUsed(h.blocks, b)
  {
    match ReallocateInplace(p, h, b, layout)
    case Done(h', ptr) => Done(h', ptr)
    case Fail =>
      match Allocate(p, h, layout)
      case Fail => Fail
      case Done(h1, ptr) =>
        AllocateOk(p, h, layout);
        AllocateKeepsUsed(p, h, layout, b);
        Done(Deallocate(p, h1, b), ptr)
  }

  lemma ReallocateOk(p: Params, h: Heap, b: int, layout: Layout)
    requires Inv(p, h) && IsUsed(h.blocks, b) && layout.alignLog == h.blocks[b].kind.layout.alignLog
    requires Reallocate(p, h, b, layout).Done?
    ensures Inv(p, Reallocate(p, h, b, layout).heap)
  {
    hide Inv, ReallocateInplace, Allocate, Deallocate;
    if ReallocateInplace(p, h, b, layout).Done? {
      ReallocateInplaceOk(p, h, b, layout);
    } else {
      AllocateOk(p, h, layout);
      AllocateKeepsUsed(p, h, layout, b);
      DeallocateOk(p, Allocate(p, h, layout).heap, b);
    }
  }

  /** No pool reaches into `[s, e)`. */
  ghost predicate Clear(pools: Pools, s: int, e: int) {
    forall t :: t in pools ==> pools[t] <= s || e <= t
  }

  lemma ClearPart(pools: Pools, s: int, e: int, s': int, e': int)
    requires Clear(pools, s, e) && s <= s' && e' <= e
    ensures Clear(pools, s', e')
  {
  }

  /** The memory given for a pool: whole granules in the address space, apart from every pool. */
  ghost predicate GoodRegion(p: Params, h: Heap, start: int, size: int) {
    && 0 < start && Aligned(p, start) && Aligned(p, size) && 0 <= size
    && start + size <= Top(p) && Clear(h.pools, start, start + size)
  }

  lemma RegionAligned(p: Params, h: Heap, start: int, size: int)
    requires GoodRegion(p, h, start, size)
    ensures 0 < start && Aligned(p, start) && Aligned(p, size) && 0 <= size
  {
  }

  /** Memory for pools that need not be whole granules, as long as its chunks are. */
  ghost predicate PoolRegion(p: Params, h: Heap, start: int, size: int) {
    && 0 < start && Aligned(p, start) && ChunksGranular(p, size) && 0 <= size
    && start + size <= Top(p) && Clear(h.pools, start, start + size)
  }

  lemma GoodIsPoolRegion(p: Params, h: Heap, start: int, size: int)
    requires GoodRegion(p, h, start, size)
    ensures PoolRegion(p, h, start, size)
  {
    hide Aligned, ChunksGranular, Clear;
    AlignedChunks(p, size);
  }

  /** Such memory is as good as its whole granules. */
  lemma RoundedRegion(p: Params, h: Heap, start: int, size: int)
    requires PoolRegion(p, h, start, size)
    ensures var n := RoundDown(size, G(p));
            && GoodRegion(p, h, start, n) && n <= size
            && InsertAligned(p, h, start, size) == InsertAligned(p, h, start, n)
            && ChunkedLength(p, size) == ChunkedLength(p, n)
            && ChunkBlocks(p, start, size) == ChunkBlocks(p, start, n)
  {
    hide Aligned, ChunksGranular, G, RoundDown, ChunkBlocks, ChunkPools, ChunkLists, ChunkedLength;
    SameChunks(p, h.lists, start, size);
    ClearPart(h.pools, start, start + size, start, start + RoundDown(size, G(p)));
  }

  lemma AddPoolBlockOk(p: Params, h: Heap, start: int, size: int, b: int)
    requires TilingOk(p, h.pools, h.blocks) && GoodRegion(p, h, start, size) && 2 * G(p) <= size
    ensures var h' := AddPool(p, h, start, size);
            BlockOk(p, h'.pools, h'.blocks, b)
  {
    hide Aligned, PayloadOk, Link, G, H, MaxPoolSize;
    var last := start + size - G(p);
    GranuleAligned(p);
    AlignedApart(p, start, size);
    AlignedApart(p, G(p), start + size);
    AlignedApart(p, start, last);
    if b in h.blocks {
      OldBlock(p, h, start, size, b);
      OldBlock(p, h, start, size, h.blocks[b].prev);
      OldBlock(p, h, start, size, b + h.blocks[b].size);
    }
  }

  lemma GranuleAligned(p: Params)
    ensures Aligned(p, G(p))
  {
    MultipleIs(1, G(p));
  }

  /** Existing blocks stay clear of a new region. */
  lemma OldBlock(p: Params, h: Heap, start: int, size: int, b: int)
    requires TilingOk(p, h.pools, h.blocks) && Clear(h.pools, start, start + size)
    ensures b in h.blocks ==>
            && BlockOk(p, h.pools, h.blocks, b) && h.blocks[b].pool in h.pools && 0 < h.blocks[b].size
            && (b + h.blocks[b].size <= start || start + size <= b)
            && (h.pools[h.blocks[b].pool] <= start || start + size <= h.blocks[b].pool)
  {
    hide Aligned, PayloadOk, H;
    assert BlockOk(p, h.pools, h.blocks, b);
  }

  ghost predicate FitsMax(p: Params, size: int) {
    MaxPoolSize(p).Some? ==> size <= MaxPoolSize(p).value
  }

  lemma AddPoolTiling(p: Params, h: Heap, start: int, size: int)
    requires TilingOk(p, h.pools, h.blocks) && GoodRegion(p, h, start, size) && 2 * G(p) <= size && FitsMax(p, size)
    ensures var h' := AddPool(p, h, start, size);
            TilingOk(p, h'.pools, h'.blocks)
  {
    hide BlockOk, Link, G, H, Aligned;
    var h' := AddPool(p, h, start, size);
    forall b
      ensures BlockOk(p, h'.pools, h'.blocks, b)
    {
      AddPoolBlockOk(p, h, start, size, b);
    }
    forall a, b
      ensures Apart(h'.blocks, a, b)
    {
      assert Apart(h.blocks, a, b);
      OldBlock(p, h, start, size, a);
      OldBlock(p, h, start, size, b);
    }
    GranuleAligned(p);
    AlignedApart(p, start, size);
    forall s
      ensures PoolOk(p, h'.pools, h'.blocks, s)
    {
      assert PoolOk(p, h.pools, h.blocks, s);
      OldBlock(p, h, start, size, s);
    }
    forall s, t
      ensures PoolsApart(h'.pools, s, t)
    {
      assert PoolsApart(h.pools, s, t);
      assert PoolOk(p, h.pools, h.blocks, s) && PoolOk(p, h.pools, h.blocks, t);
    }
  }

  lemma AddPoolOk(p: Params, h: Heap, start: int, size: int)
    requires Inv(p, h) && GoodRegion(p, h, start, size) && 2 * G(p) <= size && FitsMax(p, size)
    ensures Inv(p, AddPool(p, h, start, size))
  {
    hide TilingOk, BlockOk, ListsOk, Link, G, H, Aligned, ListOf, FitsMax, Top;
    var h' := AddPool(p, h, start, size);
    AddPoolTiling(p, h, start, size);
    OldBlock(p, h, start, size, start);
    OldBlock(p, h, start, size, start + size - G(p));
    assert FreeBlocks(h'.blocks) == FreeBlocks(h.blocks)[start := size - G(p)];
    FreeHasList(p, h'.pools, h'.blocks, start);
    LinkOk(p, h.lists, FreeBlocks(h.blocks), start, size - G(p));
  }

  lemma ChunkProps(p: Params, size: int)
    requires Aligned(p, size) && 2 * G(p) <= size
    ensures 2 * G(p) <= Chunk(p, size) <= size && Aligned(p, Chunk(p, size)) && FitsMax(p, Chunk(p, size))
  {
    if MaxPoolSize(p).Some? {
      Pow2Mono(p.gl + 1, p.gl + p.fllen);
      Pow2Add(p.fllen, p.gl);
      MultipleIs(Pow2(p.fllen), G(p));
    }
  }

  lemma ChunkBounds(p: Params, size: int)
    requires 2 * G(p) <= size
    ensures 2 * G(p) <= Chunk(p, size) <= size && FitsMax(p, Chunk(p, size))
  {
    if MaxPoolSize(p).Some? {
      Pow2Mono(p.gl + 1, p.gl + p.fllen);
    }
  }

  /** All chunks that a region is cut into are whole granules. */
  ghost predicate ChunksGranular(p: Params, size: int)
    decreases size
  {
    var c := Chunk(p, size);
    size < 2 * G(p) || c < 2 * G(p) || (Aligned(p, c) && ChunksGranular(p, size - c))
  }

  /** A length from which only whole granules are cut. */
  predicate CutsGranules(p: Params, size: nat) {
    || size < 2 * G(p) || Aligned(p, size)
    || (MaxPoolSize(p).Some? && (MaxPositive(p); size % MaxPoolSize(p).value < 2 * G(p)))
  }

  lemma MaxPositive(p: Params)
    ensures MaxPoolSize(p).Some? ==> 0 < MaxPoolSize(p).value
  {
  }

  /**
   The chunks are whole granules exactly when the region is, or when pools are bounded and what is left of the
   region after chunks of the maximum size is too small for a chunk.
   */
  lemma {:induction false} ChunksGranularIff(p: Params, size: int)
    requires 0 <= size
    ensures ChunksGranular(p, size) <==> CutsGranules(p, size)
    decreases size
  {
    hide Aligned, G, Chunk;
    if 2 * G(p) <= size {
      ChunkBounds(p, size);
      var c := Chunk(p, size);
      ChunksGranularIff(p, size - c);
      ChunkIs(p, size);
      if MaxPoolSize(p).Some? {
        var m := MaxPoolSize(p).value;
        MaxAligned(p);
        if size < m {
          DivSmall(size, m);
        } else {
          RemainderStep(size, m);
          if Aligned(p, size) {
            AlignedApart(p, m, size);
          }
          if Aligned(p, size - m) {
            AlignedApart(p, size - m, m);
          }
          if size - m < m {
            DivSmall(size - m, m);
          }
        }
      }
    }
  }

  lemma ChunkIs(p: Params, size: int)
    ensures MaxPoolSize(p).None? || size < MaxPoolSize(p).value ==> Chunk(p, size) == size
    ensures MaxPoolSize(p).Some? && MaxPoolSize(p).value <= size ==> Chunk(p, size) == MaxPoolSize(p).value
  {
  }

  lemma MaxAligned(p: Params)
    requires MaxPoolSize(p).Some?
    ensures Aligned(p, MaxPoolSize(p).value) && 2 * G(p) <= MaxPoolSize(p).value
  {
    Pow2Mono(p.gl + 1, p.gl + p.fllen);
    Pow2Add(p.fllen, p.gl);
    MultipleIs(Pow2(p.fllen), G(p));
  }

  lemma RemainderStep(x: int, m: nat)
    requires 0 < m
    ensures x % m == (x - m) % m
  {
    DivBounds(x, m);
    DivUnique(x - m, m, x / m - 1);
  }

  lemma AlignedChunks(p: Params, size: int)
    requires Aligned(p, size) && 0 <= size
    ensures ChunksGranular(p, size)
  {
    ChunksGranularIff(p, size);
  }

  /** What follows the last chunk does not matter: rounding the region down makes no difference. */
  lemma {:induction false} SameChunks(p: Params, lists: Lists, start: int, size: int)
    requires ChunksGranular(p, size) && 0 <= size
    ensures var n := RoundDown(size, G(p));
            && ChunkBlocks(p, start, size) == ChunkBlocks(p, start, n)
            && ChunkPools(p, start, size) == ChunkPools(p, start, n)
            && ChunkLists(p, lists, start, size) == ChunkLists(p, lists, start, n)
            && ChunkedLength(p, size) == ChunkedLength(p, n)
            && 0 <= n <= size && Aligned(p, n)
    decreases size
  {
    hide Aligned, G, Chunk, RoundDown, Link;
    RoundDownGranular(p, size, 0);
    if 2 * G(p) <= size {
      ChunkBounds(p, size);
      ChunkIs(p, size);
      var c := Chunk(p, size);
      if c == size {
        RoundDownGranular(p, size, size);
      } else {
        SameChunks(p, Link(p, lists, start, c - G(p)), start + c, size - c);
        RoundDownGranular(p, size, c);
        RoundDownShift(p, size, c);
        ChunkBounds(p, RoundDown(size, G(p)));
        ChunkIs(p, RoundDown(size, G(p)));
      }
    }
  }

  lemma RoundDownShift(p: Params, x: int, c: int)
    requires Aligned(p, c)
    ensures RoundDown(x, G(p)) - c == RoundDown(x - c, G(p))
  {
    hide G;
    var g := G(p);
    DivBounds(x, g);
    DivBounds(c, g);
    Distribute(x / g, -(c / g), g);
    DivUnique(x - c, g, x / g - c / g);
  }

  /** The free block of a chunk has a list. */
  lemma ChunkHasList(p: Params, start: int, size: int)
    requires 0 < start && ChunksGranular(p, size) && 2 * G(p) <= size && start + size <= Top(p)
    ensures ListOf(p, Chunk(p, size) - G(p)).Some?
  {
    hide Chunk, Pow2, G, Aligned, Granular, MapFloor;
    ChunkBounds(p, size);
    var c := Chunk(p, size);
    GranuleAligned(p);
    AlignedApart(p, G(p), c);
    AlignedGranular(p, c - G(p));
    HasList(p, c - G(p));
    if MaxPoolSize(p).None? {
      Pow2Mono(p.w, p.gl + p.fllen);
    }
  }

  lemma AlignedGranular(p: Params, x: int)
    requires Aligned(p, x) && G(p) <= x < Top(p)
    ensures Granular(p, x)
  {
  }

  /** Cutting a region into pools is adding the first one and cutting the rest. */
  lemma InsertStep(p: Params, h: Heap, start: int, size: int)
    requires 2 * G(p) <= size
    ensures var c := Chunk(p, size);
            InsertAligned(p, h, start, size) == InsertAligned(p, AddPool(p, h, start, c), start + c, size - c)
  {
    hide Chunk, Link, G, Aligned;
    ChunkBounds(p, size);
    var c := Chunk(p, size);
    var cb, cp := ChunkBlocks(p, start + c, size - c), ChunkPools(p, start + c, size - c);
    forall b | b in cb
      ensures b >= start + c
    {
      ChunkBlocksWithin(p, start + c, size - c, b);
    }
    forall b | b in cp
      ensures b >= start + c
    {
      ChunkPoolsWithin(p, start + c, size - c, b);
    }
    var free, cap := Block(c - G(p), Free, 0, start), Block(G(p), Sentinel, start, start);
    MergeShift(h.blocks, cb, start, free);
    MergeShift(h.blocks[start := free], cb, start + c - G(p), cap);
    assert cb[start := free][start + c - G(p) := cap] == cb[start + c - G(p) := cap][start := free];
    MergeShift(h.blocks, cb[start + c - G(p) := cap], start, free);
    MergeShift(h.pools, cp, start, start + c);
  }

  lemma MergeShift<K, V>(m: map<K, V>, n: map<K, V>, k: K, v: V)
    requires k !in n
    ensures m + n[k := v] == m[k := v] + n
  {
  }

  lemma {:induction false} ChunkBlocksWithin(p: Params, start: int, size: int, b: int)
    requires b in ChunkBlocks(p, start, size)
    ensures start <= b < start + size
    decreases size
  {
    hide G;
    var c := Chunk(p, size);
    if b != start && b != start + c - G(p) {
      ChunkBlocksWithin(p, start + c, size - c, b);
    }
  }

  lemma {:induction false} ChunkPoolsWithin(p: Params, start: int, size: int, b: int)
    requires b in ChunkPools(p, start, size)
    ensures start <= b && ChunkPools(p, start, size)[b] <= start + size
    decreases size
  {
    hide G;
    var c := Chunk(p, size);
    if b != start {
      ChunkPoolsWithin(p, start + c, size - c, b);
    }
  }

  lemma {:induction false} InsertOk(p: Params, h: Heap, start: int, size: int)
    requires Inv(p, h) && GoodRegion(p, h, start, size)
    ensures Inv(p, InsertAligned(p, h, start, size))
    decreases size
  {
    hide Inv, Chunk, G, Aligned, Link;
    if size < 2 * G(p) {
      assert h.blocks + map[] == h.blocks && h.pools + map[] == h.pools;
    } else {
      ChunkProps(p, size);
      var c := Chunk(p, size);
      InsertStep(p, h, start, size);
      AlignedApart(p, start, c);
      AlignedApart(p, c, size);
      AddPoolOk(p, h, start, c);
      InsertOk(p, AddPool(p, h, start, c), start + c, size - c);
    }
  }

  /** Rounding the start of a region up, with the addition and subtraction of words. */
  lemma InsertPlan(p: Params, start: int, len: int)
    requires 0 < start < Top(p) && 0 <= len && start + len <= Top(p)
    ensures var t := (start + (G(p) - 1)) % Top(p);
            var pad := RoundUp(start, G(p)) - start;
            && 0 <= t < Top(p) && p.gl <= p.w
            && (RoundDown(t, Pow2(p.gl)) - start) % Top(p) == pad && 0 <= pad
            && (len - pad >= 2 * G(p) ==>
                  && RoundDown(t, Pow2(p.gl)) == start + pad && Aligned(p, start + pad)
                  && 0 <= len - pad < Top(p)
                  && RoundDown(len - pad, Pow2(p.gl)) == RoundDown(len - pad, G(p)) <= len - pad
                  && 0 <= RoundDown(len - pad, G(p)) && Aligned(p, RoundDown(len - pad, G(p))))
  {
    hide RoundDown, RoundUp, Pow2, G, Top;
    WidthExceeds(p);
    GranulePow2(p);
    RoundUpAligned(p, start);
    var pad := RoundUp(start, G(p)) - start;
    if len - pad >= 2 * G(p) {
      RoundDownProps(len - pad, G(p));
    }
    if start + (G(p) - 1) < Top(p) {
      RoundingIs(p, 0, 0, start);
      DivSmall(start + (G(p) - 1), Top(p));
      DivSmall(pad, Top(p));
    } else {
      WrappedStart(p, start);
    }
  }

  /** What insertion does to the two kinds of regions, and how much of them it takes. */
  lemma InsertCases(p: Params, h: Heap, start: int, len: int)
    ensures var pad := RoundUp(start, G(p)) - start;
            var n := RoundDown(len - pad, G(p));
            && 0 <= pad
            && (if len - pad < 2 * G(p) then InsertPtr(p, h, start, len) == h && InsertedLength(p, start, len) == 0
                else
                  && InsertPtr(p, h, start, len) == InsertAligned(p, h, start + pad, n)
                  && InsertedLength(p, start, len) == pad + ChunkedLength(p, n)
                  && 2 * G(p) <= ChunkedLength(p, n) <= n <= len - pad && Aligned(p, start + pad) && Aligned(p, n))
  {
    hide RoundDown, RoundUp, Pow2, G, InsertAligned, ChunkedLength, Aligned;
    RoundUpAligned(p, start);
    GranuleAligned(p);
    var pad := RoundUp(start, G(p)) - start;
    if len - pad >= 2 * G(p) {
      RoundedRest(p, len - pad);
    }
  }

  lemma RoundedRest(p: Params, x: int)
    requires 2 * G(p) <= x
    ensures var n := RoundDown(x, G(p));
            Aligned(p, n) && 2 * G(p) <= ChunkedLength(p, n) <= n <= x
  {
    hide RoundDown, G, ChunkedLength, Aligned;
    GranuleAligned(p);
    GPositive(p);
    AlignedApart(p, G(p), G(p));
    RoundDownGranular(p, x, 2 * G(p));
    ChunkedLengthIs(p, RoundDown(x, G(p)));
  }

  lemma GPositive(p: Params)
    ensures 0 < G(p)
  {
  }

  lemma RoundDownGranular(p: Params, x: int, v: int)
    requires Aligned(p, v) && v <= x
    ensures v <= RoundDown(x, G(p)) <= x && Aligned(p, RoundDown(x, G(p)))
  {
    RoundDownProps(x, G(p));
    RoundDownGreatest(x, v, G(p));
  }

  /** A start in the last granule of the address space wraps around to 0. */
  lemma WrappedStart(p: Params, start: int)
    requires start < Top(p) <= start + (G(p) - 1)
    ensures RoundUp(start, G(p)) == Top(p)
    ensures 0 <= (start + (G(p) - 1)) % Top(p) < G(p)
    ensures RoundDown((start + (G(p) - 1)) % Top(p), Pow2(p.gl)) == 0
    ensures (0 - start) % Top(p) == Top(p) - start
  {
    WidthExceeds(p);
    TopIsMultiple(p, p.gl);
    RoundUpProps(start, G(p));
    RoundUpLeast(start, Top(p), G(p));
    if RoundUp(start, G(p)) < Top(p) {
      MultipleDiff(RoundUp(start, G(p)), Top(p), G(p));
    }
    DivUnique(start + (G(p) - 1), Top(p), 1);
    DivUnique(0 - start, Top(p), -1);
    DivSmall(start + (G(p) - 1) - Top(p), G(p));
  }

  /** The chunks cover all but at most one granule. */
  lemma {:induction false} ChunkedLengthIs(p: Params, size: int)
    requires Aligned(p, size) && 0 <= size
    ensures var n := ChunkedLength(p, size);
            Aligned(p, n) && 0 <= n && (n == size || n == size - G(p)) && (2 * G(p) <= size ==> 2 * G(p) <= n)
    decreases size
  {
    hide Chunk, G, Aligned;
    GranuleAligned(p);
    if size < 2 * G(p) {
      AlignedApart(p, G(p), G(p));
      AlignedApart(p, 0, size);
      AlignedApart(p, size, 2 * G(p));
      AlignedApart(p, size, size);
    } else {
      ChunkProps(p, size);
      var c := Chunk(p, size);
      AlignedApart(p, c, size);
      ChunkedLengthIs(p, size - c);
      AlignedApart(p, c, ChunkedLength(p, size - c));
    }
  }

  // ----- extending a pool -----

  /** `start` is the end of a pool, which ends in the sentinel below it. */
  ghost predicate EndsPool(p: Params, h: Heap, start: int) {
    start - G(p) in h.blocks && h.blocks[start - G(p)].kind.Sentinel?
  }

  lemma ExtendBlockOk(p: Params, h: Heap, start: int, len: int, b: int)
    requires Inv(p, h) && EndsPool(p, h, start) && GoodRegion(p, h, start, len) && 0 < len
    ensures var h' := Extend(p, h, start, len);
            BlockOk(p, h'.pools, h'.blocks, b)
  {
    hide Aligned, PayloadOk, Link, Unlink, ListsOk, G, H, MaxPoolSize;
    var cap := start - G(p);
    var pen := h.blocks[cap].prev;
    var lo := if IsFree(h.blocks, pen) then pen else cap;
    assert BlockOk(p, h.pools, h.blocks, cap);
    assert BlockOk(p, h.pools, h.blocks, pen);
    if b == lo || b == start + len - G(p) {
      ExtendMakes(p, h, start, len, b);
    } else if b in h.blocks && b < lo {
      ExtendKeepsBelow(p, h, start, len, b);
    } else if b in h.blocks && start <= b {
      ExtendKeepsAbove(p, h, start, len, b);
    }
  }

  lemma ExtendMakes(p: Params, h: Heap, start: int, len: int, b: int)
    requires Inv(p, h) && EndsPool(p, h, start) && GoodRegion(p, h, start, len) && 0 < len
    requires var cap := start - G(p);
             var pen := h.blocks[cap].prev;
             b == (if IsFree(h.blocks, pen) then pen else cap) || b == start + len - G(p)
    ensures var h' := Extend(p, h, start, len);
            BlockOk(p, h'.pools, h'.blocks, b)
  {
    hide Aligned, PayloadOk, Link, Unlink, ListsOk, G, H, MaxPoolSize, PoolOk, PoolsApart, Apart, Clear;
    var cap := start - G(p);
    var pen := h.blocks[cap].prev;
    var lo := if IsFree(h.blocks, pen) then pen else cap;
    assert BlockOk(p, h.pools, h.blocks, cap);
    assert BlockOk(p, h.pools, h.blocks, pen);
    assert BlockOk(p, h.pools, h.blocks, h.blocks[lo].prev);
    ExtendAligned(p, start, len, lo);
    OldBlock(p, h, start, len, start + len - G(p));
  }

  lemma ExtendKeepsBelow(p: Params, h: Heap, start: int, len: int, b: int)
    requires Inv(p, h) && EndsPool(p, h, start) && GoodRegion(p, h, start, len) && 0 < len
    requires var cap := start - G(p);
             var pen := h.blocks[cap].prev;
             b in h.blocks && b < (if IsFree(h.blocks, pen) then pen else cap)
    ensures var h' := Extend(p, h, start, len);
            BlockOk(p, h'.pools, h'.blocks, b)
  {
    hide Aligned, PayloadOk, Link, Unlink, ListsOk, G, H, MaxPoolSize, PoolOk, PoolsApart, Clear;
    var cap := start - G(p);
    var pen := h.blocks[cap].prev;
    var lo := if IsFree(h.blocks, pen) then pen else cap;
    assert BlockOk(p, h.pools, h.blocks, cap);
    assert BlockOk(p, h.pools, h.blocks, pen);
    assert BlockOk(p, h.pools, h.blocks, b);
    assert BlockOk(p, h.pools, h.blocks, h.blocks[b].prev);
    assert BlockOk(p, h.pools, h.blocks, h.blocks[lo].prev);
    assert BlockOk(p, h.pools, h.blocks, 0);
    assert Apart(h.blocks, b, lo);
    ExtendAligned(p, start, len, lo);
  }

  lemma ExtendKeepsAbove(p: Params, h: Heap, start: int, len: int, b: int)
    requires Inv(p, h) && EndsPool(p, h, start) && GoodRegion(p, h, start, len) && 0 < len
    requires b in h.blocks && start <= b && b != start + len - G(p)
    ensures var h' := Extend(p, h, start, len);
            BlockOk(p, h'.pools, h'.blocks, b)
  {
    hide Aligned, PayloadOk, Link, Unlink, ListsOk, G, H, MaxPoolSize;
    var cap := start - G(p);
    var q, n := h.blocks[b].prev, b + h.blocks[b].size;
    assert BlockOk(p, h.pools, h.blocks, cap);
    OldBlock(p, h, start, len, b);
    OldBlock(p, h, start, len, q);
    OldBlock(p, h, start, len, n);
  }

  lemma ExtendAligned(p: Params, start: int, len: int, lo: int)
    requires Aligned(p, start) && Aligned(p, len) && 0 < len && Aligned(p, lo) && lo < start
    ensures var last := start + len - G(p);
            Aligned(p, last) && Aligned(p, last - lo) && Aligned(p, G(p)) && G(p) <= last - lo
  {
    hide Aligned, G;
    GranuleAligned(p);
    AlignedApart(p, start, len);
    AlignedApart(p, G(p), start + len);
    AlignedApart(p, lo, start + len - G(p));
    AlignedApart(p, 0, len);
    AlignedApart(p, len, len);
    AlignedApart(p, lo, start);
  }

  lemma ExtendApart(p: Params, h: Heap, start: int, len: int, a: int, b: int)
    requires Inv(p, h) && EndsPool(p, h, start) && GoodRegion(p, h, start, len) && 0 < len
    ensures Apart(Extend(p, h, start, len).blocks, a, b)
  {
    hide Aligned, PayloadOk, Link, Unlink, ListsOk, G, H, MaxPoolSize;
    var cap := start - G(p);
    var pen := h.blocks[cap].prev;
    var lo := if IsFree(h.blocks, pen) then pen else cap;
    assert BlockOk(p, h.pools, h.blocks, cap);
    assert BlockOk(p, h.pools, h.blocks, pen);
    ExtendAligned(p, start, len, lo);
    OldBlock(p, h, start, len, a);
    OldBlock(p, h, start, len, b);
    assert Apart(h.blocks, a, b) && Apart(h.blocks, a, lo);
  }

  lemma ExtendPools(p: Params, h: Heap, start: int, len: int, s: int)
    requires Inv(p, h) && EndsPool(p, h, start) && GoodRegion(p, h, start, len) && 0 < len
    requires MaxPoolSize(p).None?
    ensures var h' := Extend(p, h, start, len);
            PoolOk(p, h'.pools, h'.blocks, s)
  {
    hide Aligned, PayloadOk, Link, Unlink, ListsOk, G, H, MaxPoolSize;
    var cap := start - G(p);
    var pen := h.blocks[cap].prev;
    assert BlockOk(p, h.pools, h.blocks, cap);
    assert BlockOk(p, h.pools, h.blocks, pen);
    assert PoolOk(p, h.pools, h.blocks, s);
    assert BlockOk(p, h.pools, h.blocks, s);
    assert Apart(h.blocks, pen, s);
    AlignedApart(p, start, len);
    AlignedApart(p, 0, len);
    OldBlock(p, h, start, len, s);
  }

  lemma ExtendPoolsApart(p: Params, h: Heap, start: int, len: int, s: int, t: int)
    requires Inv(p, h) && EndsPool(p, h, start) && GoodRegion(p, h, start, len) && 0 < len
    ensures PoolsApart(Extend(p, h, start, len).pools, s, t)
  {
    hide Aligned, PayloadOk, Link, Unlink, ListsOk, G, H, MaxPoolSize;
    var cap := start - G(p);
    assert BlockOk(p, h.pools, h.blocks, cap);
    assert PoolsApart(h.pools, s, t);
    assert PoolOk(p, h.pools, h.blocks, t);
  }

  lemma ExtendOk(p: Params, h: Heap, start: int, len: int)
    requires Inv(p, h) && EndsPool(p, h, start) && GoodRegion(p, h, start, len) && 0 < len
    requires MaxPoolSize(p).None?
    ensures Inv(p, Extend(p, h, start, len))
  {
    var h' := Extend(p, h, start, len);
    assert TilingOk(p, h'.pools, h'.blocks) by {
      ExtendTiling(p, h, start, len);
    }
    ExtendLists(p, h, start, len);
  }

  lemma ExtendTiling(p: Params, h: Heap, start: int, len: int)
    requires Inv(p, h) && EndsPool(p, h, start) && GoodRegion(p, h, start, len) && 0 < len
    requires MaxPoolSize(p).None?
    ensures var h' := Extend(p, h, start, len);
            TilingOk(p, h'.pools, h'.blocks)
  {
    hide Inv, BlockOk, Apart, PoolOk, PoolsApart, EndsPool, GoodRegion, Extend;
    assert start - G(p) in h.blocks by {
      EndsPoolIn(p, h, start);
    }
    var h' := Extend(p, h, start, len);
    forall b
      ensures BlockOk(p, h'.pools, h'.blocks, b)
    {
      ExtendBlockOk(p, h, start, len, b);
    }
    forall a, b
      ensures Apart(h'.blocks, a, b)
    {
      ExtendApart(p, h, start, len, a, b);
    }
    forall s
      ensures PoolOk(p, h'.pools, h'.blocks, s)
    {
      ExtendPools(p, h, start, len, s);
    }
    forall s, t
      ensures PoolsApart(h'.pools, s, t)
    {
      ExtendPoolsApart(p, h, start, len, s, t);
    }
  }

  lemma EndsPoolIn(p: Params, h: Heap, start: int)
    requires EndsPool(p, h, start)
    ensures start - G(p) in h.blocks
  {
  }

  lemma ExtendFree(p: Params, h: Heap, start: int, len: int)
    requires Inv(p, h) && EndsPool(p, h, start) && GoodRegion(p, h, start, len) && 0 < len
    ensures var cap := start - G(p);
            var pen := h.blocks[cap].prev;
            var lo := if IsFree(h.blocks, pen) then pen else cap;
            var free := FreeBlocks(h.blocks);
            FreeBlocks(Extend(p, h, start, len).blocks) ==
              (if IsFree(h.blocks, pen) then free - {pen} else free)[lo := start + len - G(p) - lo]
  {
    hide Aligned, PayloadOk, Link, Unlink, ListsOk, G, H, MaxPoolSize, PoolOk, PoolsApart;
    var cap := start - G(p);
    var pen := h.blocks[cap].prev;
    var lo := if IsFree(h.blocks, pen) then pen else cap;
    var last := start + len - G(p);
    assert BlockOk(p, h.pools, h.blocks, cap);
    assert BlockOk(p, h.pools, h.blocks, pen);
    ExtendAligned(p, start, len, lo);
    OldBlock(p, h, start, len, last);
    forall x | x in h.blocks && lo <= x < start
      ensures x == lo || x == cap
    {
      assert Apart(h.blocks, lo, x) && Apart(h.blocks, cap, x);
    }
  }

  lemma ExtendLists(p: Params, h: Heap, start: int, len: int)
    requires Inv(p, h) && EndsPool(p, h, start) && GoodRegion(p, h, start, len) && 0 < len
    requires TilingOk(p, Extend(p, h, start, len).pools, Extend(p, h, start, len).blocks)
    ensures ListsOk(p, Extend(p, h, start, len).lists, FreeBlocks(Extend(p, h, start, len).blocks))
  {
    hide Aligned, Link, Unlink, ListsOk, G, H, MaxPoolSize, ListOf, TilingOk;
    var h' := Extend(p, h, start, len);
    var cap := start - G(p);
    var pen := h.blocks[cap].prev;
    var lo := if IsFree(h.blocks, pen) then pen else cap;
    var last := start + len - G(p);
    var free := FreeBlocks(h.blocks);
    var left := if IsFree(h.blocks, pen) then free - {pen} else free;
    ExtendFree(p, h, start, len);
    assert lo in FreeBlocks(h'.blocks);
    FreeHasList(p, h'.pools, h'.blocks, lo);
    if IsFree(h.blocks, pen) {
      UnlinkOk(p, h.lists, free, pen);
      LinkOk(p, Unlink(p, h.lists, pen, h.blocks[pen].size), left, lo, last - lo);
    } else {
      LinkOk(p, h.lists, left, lo, last - lo);
    }
  }

  lemma AppendOk(p: Params, h: Heap, start: int, len: int)
    requires Inv(p, h) && EndsPool(p, h, start) && 0 <= len && 0 < start && Aligned(p, start)
    requires start + len <= Top(p) && Clear(h.pools, start, start + len)
    ensures Inv(p, Append(p, h, start, len))
  {
    hide Inv, EndsPool, Extend, InsertAligned, Top, G;
    EndsPoolIn(p, h, start);
    RoundDownProps(len, G(p));
    if MaxPoolSize(p).Some? {
      InsertOk(p, h, start, RoundDown(len, G(p)));
    } else if RoundDown(len, G(p)) != 0 {
      ExtendOk(p, h, start, RoundDown(len, G(p)));
    }
  }
}
