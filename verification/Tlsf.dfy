/** The allocator itself: bitmaps, list heads and headers in memory, updated in place. */
module TlsfAllocator {
  import opened Arith
  import opened Bits
  import opened Config
  import opened SizeClass
  import opened Blocks
  import opened FreeLists
  import opened Heap
  import opened Operations
  import opened Memory
  import opened Represent

  function EmptyLists(p: Params): Lists {
    map fl, sl | 0 <= fl < p.fllen && 0 <= sl < Sllen(p) :: Class(fl, sl) := []
  }

  /** A layout whose size and alignment are words. */
  predicate LayoutOk(p: Params, layout: Layout) {
    layout.size < Top(p) && layout.alignLog < p.w
  }

  class Tlsf {
    const p: Params
    var flBitmap: nat
    const slBitmap: array<nat>
    const firstFree: array2<int>
    /** The memory that holds the pools. */
    var mem: Memory
    /** What all of this represents. */
    ghost var h: Heap

    ghost predicate ListsRep()
      reads this, slBitmap, firstFree
    {
      && slBitmap.Length == p.fllen && firstFree.Length0 == p.fllen && firstFree.Length1 == Sllen(p)
      && BitmapsOk(p, h.lists, flBitmap, slBitmap[..])
      && (forall c {:trigger ValidClass(p, c)} ::
            ValidClass(p, c) && c in h.lists ==> firstFree[c.fl, c.sl] == Head(h.lists[c]))
      && LinksOk(p, h.lists, mem)
    }

    ghost predicate Valid()
      reads this, slBitmap, firstFree
    {
      ListsRep() && Inv(p, h) && HeadersOk(p, h.blocks, mem)
    }

    constructor (params: Params, memory: Memory)
      ensures Valid() && p == params && mem == memory
      ensures h == Heap(map[], map[], EmptyLists(params))
      ensures fresh(slBitmap) && fresh(firstFree)
    {
      p, mem, flBitmap := params, memory, 0;
      slBitmap := new nat[params.fllen](i => 0);
      firstFree := new int[params.fllen, Sllen(params)]((i, j) => 0);
      h := Heap(map[], map[], EmptyLists(params));
      new;
      forall fl: nat
        ensures SlOk(p, h.lists, slBitmap[..], fl)
      {
        forall sl: nat
          ensures !GetBit(0, sl)
        {
          ZeroBits(sl);
        }
      }
      forall fl: nat
        ensures !GetBit(0, fl)
      {
        ZeroBits(fl);
      }
    }

    /** Insert a block of the given size at the front of its list. */
    method LinkFreeBlock(block: int, size: int, ghost free: map<int, int>)
      requires ListsRep() && ListsOk(p, h.lists, free)
      requires 0 < block && block !in free && ListOf(p, size).Some?
      modifies this, slBitmap, firstFree
      ensures ListsRep() && ListsOk(p, h.lists, free[block := size])
      ensures h == old(h).(lists := Link(p, old(h.lists), block, size))
      ensures forall a {:trigger Load(mem, a)} ::
                a != block + H(p) && a - H(p) !in free ==> Load(mem, a) == old(Load(mem, a))
    {
      hide ListOf, MapFloor, SetBit, GetBit, BitmapsOk, Pow2, LinksOk, Granular, ListsOk;
      ListOfIs(p, size);
      var c := MapFloor(p, size).value;
      ghost var m0, sl0 := mem, slBitmap[..];
      LinkOk(p, h.lists, free, block, size);
      ghost var l := h.lists[c];
      if l != [] {
        ListMember(p, h.lists, free, c, 0);
      }
      BitsSet(p, h.lists, flBitmap, slBitmap[..], c, [block] + l);
      LinksAfterLink(p, h.lists, free, mem, block, size);

      var next := firstFree[c.fl, c.sl];
      firstFree[c.fl, c.sl] := block;
      mem := Store(mem, block + H(p), Cell(next, 0));
      if next != 0 {
        mem := Store(mem, next + H(p), Cell(Load(mem, next + H(p)).w0, block));
      }
      flBitmap := SetBit(flBitmap, c.fl, p.flBits);
      slBitmap[c.fl] := SetBit(slBitmap[c.fl], c.sl, p.slBits);

      h := h.(lists := Link(p, h.lists, block, size));
      assert mem == LinkWrites(p, m0, block, next);
      assert slBitmap[..] == sl0[c.fl := SetBit(sl0[c.fl], c.sl, p.slBits)];
    }

    /** Remove a block of the given size from its list. */
    method UnlinkFreeBlock(block: int, size: int, ghost free: map<int, int>)
      requires ListsRep() && ListsOk(p, h.lists, free)
      requires block in free && free[block] == size
      modifies this, slBitmap, firstFree
      ensures ListsRep() && ListsOk(p, h.lists, free - {block})
      ensures h == old(h).(lists := Unlink(p, old(h.lists), block, size))
      ensures forall a {:trigger Load(mem, a)} :: a - H(p) !in free ==> Load(mem, a) == old(Load(mem, a))
    {
      hide ListOf, MapFloor, ClearBit, GetBit, BitmapsOk, Pow2, LinksOk, Granular, ListsOk, Without;
      UnlinkOk(p, h.lists, free, block);
      ListOfIs(p, size);
      ghost var m0, sl0, lists0 := mem, slBitmap[..], h.lists;
      ghost var c0 := ListOf(p, size).value;
      ghost var l := lists0[c0];
      ghost var k :| 0 <= k < |l| && l[k] == block;
      UnlinkFacts(p, lists0, free, c0, k);
      LinksAfterUnlink(p, lists0, free, mem, block, size, k);

      var next := Load(mem, block + H(p)).w0;
      var prev := Load(mem, block + H(p)).w1;
      if next != 0 {
        mem := Store(mem, next + H(p), Cell(Load(mem, next + H(p)).w0, prev));
      }
      if prev != 0 {
        mem := Store(mem, prev + H(p), Cell(next, Load(mem, prev + H(p)).w1));
        BitsKept(p, lists0, flBitmap, slBitmap[..], c0, Without(l, block));
      } else {
        var c := MapFloor(p, size).value;
        firstFree[c.fl, c.sl] := next;
        if next == 0 {
          BitsCleared(p, lists0, flBitmap, slBitmap[..], c);
          slBitmap[c.fl] := ClearBit(slBitmap[c.fl], c.sl, p.slBits);
          if slBitmap[c.fl] == 0 {
            flBitmap := ClearBit(flBitmap, c.fl, p.flBits);
          }
          assert slBitmap[..] == sl0[c.fl := ClearBit(sl0[c.fl], c.sl, p.slBits)];
        } else {
          BitsKept(p, lists0, flBitmap, slBitmap[..], c0, Without(l, block));
        }
      }
      h := h.(lists := Unlink(p, h.lists, block, size));
      assert mem == UnlinkWrites(p, m0, next, prev);
    }

    /** Remove the first block of list `c`. */
    method UnlinkFirst(c: Class, ghost free: map<int, int>) returns (block: int)
      requires ListsRep() && ListsOk(p, h.lists, free)
      requires c in h.lists && h.lists[c] != []
      modifies this, slBitmap, firstFree
      ensures block == old(h.lists[c][0]) && block in free
      ensures ListsRep() && ListsOk(p, h.lists, free - {block})
      ensures h == old(h).(lists := Unlink(p, old(h.lists), block, free[block]))
      ensures forall a {:trigger Load(mem, a)} :: a - H(p) !in free ==> Load(mem, a) == old(Load(mem, a))
    {
      hide ListOf, ClearBit, GetBit, BitmapsOk, Pow2, LinksOk, ListsOk, Without;
      ghost var m0, sl0, lists0 := mem, slBitmap[..], h.lists;
      ghost var l := lists0[c];
      ListMember(p, lists0, free, c, 0);
      UnlinkFacts(p, lists0, free, c, 0);

      block := firstFree[c.fl, c.sl];
      UnlinkOk(p, lists0, free, block);
      LinksAfterUnlink(p, lists0, free, mem, block, free[block], 0);
      var next := Load(mem, block + H(p)).w0;
      firstFree[c.fl, c.sl] := next;
      if next != 0 {
        mem := Store(mem, next + H(p), Cell(Load(mem, next + H(p)).w0, 0));
        BitsKept(p, lists0, flBitmap, slBitmap[..], c, Without(l, block));
      } else {
        BitsCleared(p, lists0, flBitmap, slBitmap[..], c);
        slBitmap[c.fl] := ClearBit(slBitmap[c.fl], c.sl, p.slBits);
        if slBitmap[c.fl] == 0 {
          flBitmap := ClearBit(flBitmap, c.fl, p.flBits);
        }
        assert slBitmap[..] == sl0[c.fl := ClearBit(sl0[c.fl], c.sl, p.slBits)];
      }
      h := h.(lists := Unlink(p, h.lists, block, free[block]));
      assert mem == UnlinkWrites(p, m0, next, 0);
    }

    /**
     Make a used block of the given size at the front of the unlisted range `[lo, hi)`, with a free block
     behind it if there is room left.
     */
    method OccupyFront(lo: int, size: int, hi: int, ptr: int, layout: Layout, ghost free: map<int, int>)
      requires ListsRep() && ListsOk(p, h.lists, free)
      requires 0 < lo && G(p) <= size && (lo + size == hi || lo + size + G(p) <= hi)
      requires p.gl <= layout.alignLog ==> lo < ptr - H(p) < lo + size
      requires forall x :: x in free ==> x + G(p) <= lo || hi <= x
      requires lo + size < hi ==> ListOf(p, hi - (lo + size)).Some?
      modifies this, slBitmap, firstFree
      ensures ListsRep()
      ensures h == old(h).(lists := if lo + size < hi then Link(p, old(h.lists), lo + size, hi - (lo + size))
                                    else old(h.lists))
      ensures Occupied(p, lo, size, hi, ptr, layout, old(mem), mem)
      ensures Sparse(p, lo, lo + size, hi, ptr, layout, free, old(mem), mem)
    {
      hide ListOf, ListsRep, ListsOk, Link, Pow2, Or, G, H, Load;
      FreeRest(lo, lo + size, hi, free);
      ghost var free1 := if lo + size < hi then free[lo + size := hi - (lo + size)] else free;
      WriteUsed(lo, size, ptr, layout, free1);
    }

    /** Turn a block into a used block: write its size word and, for a large alignment, the pad. */
    method WriteUsed(lo: int, size: nat, ptr: int, layout: Layout, ghost free: map<int, int>)
      requires ListsRep() && ListsOk(p, h.lists, free)
      requires p.gl <= layout.alignLog ==> lo < ptr - H(p)
      requires forall x :: x in free ==> x + H(p) != lo && (p.gl <= layout.alignLog ==> x + H(p) != ptr - H(p))
      modifies this`mem
      ensures ListsRep()
      ensures Load(mem, lo) == Cell(Or(size, SIZE_USED), old(Load(mem, lo)).w1)
      ensures p.gl <= layout.alignLog ==> Load(mem, ptr - H(p)).w1 == lo
      ensures forall a {:trigger Load(mem, a)} ::
                a != lo && (p.gl <= layout.alignLog ==> a != ptr - H(p)) ==> Load(mem, a) == old(Load(mem, a))
    {
      hide BitmapsOk, LinksOk, ListsOk, Pow2, Or, G, H, Load, Store;
      mem := Store(mem, lo, Cell(Or(size, SIZE_USED), Load(mem, lo).w1));
      if p.gl <= layout.alignLog {
        mem := Store(mem, ptr - H(p), Cell(Load(mem, ptr - H(p)).w0, lo));
      }
      LinksKept(p, h.lists, free, old(mem), mem);
    }

    /** Fill the slack `[mid, hi)` with a free block, if there is any, and tell the block at `hi` what precedes it. */
    method FreeRest(lo: int, mid: int, hi: int, ghost free: map<int, int>)
      requires ListsRep() && ListsOk(p, h.lists, free)
      requires 0 < lo && lo + G(p) <= mid && (mid == hi || mid + G(p) <= hi)
      requires forall x :: x in free ==> x + G(p) <= lo || hi <= x
      requires mid < hi ==> ListOf(p, hi - mid).Some?
      modifies this, slBitmap, firstFree
      ensures ListsRep() && ListsOk(p, h.lists, if mid < hi then free[mid := hi - mid] else free)
      ensures h == old(h).(lists := if mid < hi then Link(p, old(h.lists), mid, hi - mid) else old(h.lists))
      ensures mid < hi ==> Load(mem, mid) == Cell(hi - mid, lo)
      ensures Load(mem, hi) == Cell(old(Load(mem, hi)).w0, if mid < hi then mid else lo)
      ensures forall a {:trigger Load(mem, a)} ::
                a != hi && (mid < hi ==> a != mid && a != mid + H(p)) && a - H(p) !in free ==>
                  Load(mem, a) == old(Load(mem, a))
    {
      hide ListOf, BitmapsOk, LinksOk, ListsOk, Link, Pow2, G, H, Load, Store;
      if mid < hi {
        mem := Store(mem, hi, Cell(Load(mem, hi).w0, mid));
        mem := Store(mem, mid, Cell(hi - mid, lo));
        LinksKept(p, h.lists, free, old(mem), mem);
        LinkFreeBlock(mid, hi - mid, free);
      } else {
        mem := Store(mem, hi, Cell(Load(mem, hi).w0, lo));
        LinksKept(p, h.lists, free, old(mem), mem);
      }
    }

    /**
     Complete a recut of `[lo, hi)`, whose free blocks have been unlinked, into a used block and a free rest.
     `h0` and `m0` are the heap and the memory before the operation.
     */
    method Commit(lo: int, size: int, hi: int, ptr: int, layout: Layout, ghost h0: Heap, ghost m0: Memory,
                  ghost drop: seq<int>)
      requires Inv(p, h0) && HeadersOk(p, h0.blocks, m0)
      requires CanReshape(p, h0, lo, lo + size, hi, Used(ptr, layout), drop)
      requires forall i :: 0 <= i < |drop| ==> drop[i] in h0.blocks
      requires ListsRep() && ListsOk(p, h.lists, FreeBlocks(h0.blocks) - (set x | x in drop))
      requires h == h0.(lists := UnlinkAll(p, h0.lists, h0.blocks, drop))
      requires Load(mem, lo).w1 == Load(m0, lo).w1 && Load(mem, hi) == Load(m0, hi)
      requires Kept(p, h0.blocks, lo, hi, m0, mem)
      modifies this, slBitmap, firstFree
      ensures Valid()
      ensures h == Reshape(p, h0, lo, lo + size, hi, Used(ptr, layout), drop)
      ensures forall b {:trigger PayloadKept(h0.blocks, m0, mem, b)} ::
                !(lo <= b < hi) ==> PayloadKept(h0.blocks, m0, mem, b)
      ensures OutsideKept(p, h0.pools, m0, mem)
      ensures forall a {:trigger Load(mem, a)} :: ptr <= a < lo + size ==> Load(mem, a) == old(Load(mem, a))
      ensures OnlyCells(p, h0.blocks, h.blocks, 0, 0, old(mem), mem)
    {
      hide Pow2, G, H, BitmapsOk, LinksOk, ListsOk, TilingOk, HeadersOk, ListOf, Link, SizeWord, PayloadKept,
        OutsideKept, Load, Retile, PayloadOk, UnlinkAll, Occupied, Kept, Sparse, OnlyCells;
      ReshapePlan(p, h0, lo, lo + size, hi, Used(ptr, layout), drop);
      ReshapeOk(p, h0, lo, lo + size, hi, Used(ptr, layout), drop);
      ghost var m1 := mem;
      OccupyFront(lo, size, hi, ptr, layout, FreeBlocks(h0.blocks) - (set x | x in drop));
      AfterOccupied(p, h0, lo, size, hi, ptr, layout, drop, m0, m1, mem);
      SparseCells(p, h0, lo, lo + size, hi, ptr, layout, drop, m1, mem);
      h := Heap(Retile(h0.blocks, lo, lo + size, hi, Used(ptr, layout)), h0.pools, h.lists);
    }

    /**
     The free blocks `drop` have been taken off their lists since the heap was `h0` and the memory `m0`, and
     nothing else has happened.
     */
    ghost predicate Detached(h0: Heap, m0: Memory, drop: seq<int>)
      requires forall i :: 0 <= i < |drop| ==> drop[i] in h0.blocks
      reads this, slBitmap, firstFree
    {
      && ListsRep() && ListsOk(p, h.lists, FreeBlocks(h0.blocks) - (set x | x in drop))
      && h == h0.(lists := UnlinkAll(p, h0.lists, h0.blocks, drop))
      && forall a {:trigger Load(mem, a)} :: !IsFree(h0.blocks, a - H(p)) ==> Load(mem, a) == Load(m0, a)
    }

    /** Take one more free block off its list. */
    method Detach(x: int, size: int, ghost h0: Heap, ghost m0: Memory, ghost drop: seq<int>)
      requires forall i :: 0 <= i < |drop| ==> drop[i] in h0.blocks
      requires Detached(h0, m0, drop)
      requires IsFree(h0.blocks, x) && x !in drop && size == h0.blocks[x].size
      modifies this, slBitmap, firstFree
      ensures Detached(h0, m0, drop + [x])
    {
      hide ListsRep, ListsOk, Unlink, UnlinkAll, Load, H;
      ghost var free := FreeBlocks(h0.blocks) - (set y | y in drop);
      UnlinkFreeBlock(x, size, free);
      UnlinkAllLast(p, h0.lists, h0.blocks, drop, x);
      assert free - {x} == FreeBlocks(h0.blocks) - (set y | y in drop + [x]);
    }

    /** Attempt to allocate; the result is 0 on failure. */
    method Allocate(layout: Layout) returns (ptr: int)
      requires Valid() && LayoutOk(p, layout)
      modifies this, slBitmap, firstFree
      ensures Valid()
      ensures match Operations.Allocate(p, old(h), layout)
              case Fail => ptr == 0 && unchanged(this, slBitmap, firstFree)
              case Done(h', q) => 0 < ptr == q && h == h'
      ensures forall b {:trigger PayloadKept(old(h.blocks), old(mem), mem, b)} ::
                PayloadKept(old(h.blocks), old(mem), mem, b)
      ensures OnlyCells(p, old(h.blocks), h.blocks, 0, 0, old(mem), mem)
      ensures OutsideKept(p, old(h.pools), old(mem), mem)
    {
      hide Pow2, G, H, Granular, MapCeil, FirstFrom, AllocateAt, SearchSize, Search, BitmapsOk, LinksOk, ListsOk,
        TilingOk, HeadersOk, ListOf, Link, Unlink, PayloadKept, OutsideKept, Operations.Allocate, Load, Store,
        OnlyCells;
      AllocateIs(p, h, layout);
      NoCells(p, h.blocks, h.blocks, 0, 0, mem);
      NothingChanged(p, h.pools, h.blocks, mem);

      // search for a suitable free block
      ptr := 0;
      var searchSize := SearchSize(p, layout);
      if searchSize.None? {
        return;
      }
      SearchIs(p, h.lists, flBitmap, slBitmap[..], searchSize.value);
      var c := Search(p, flBitmap, slBitmap[..], searchSize.value);
      if c.None? {
        return;
      }
      var block := UnlinkFirst(c.value, FreeBlocks(h.blocks));
      ptr := AllocateFrom(block, layout, old(h), old(mem));
    }

    /** The rest of an allocation, once a large enough free block has been taken off its list. */
    method AllocateFrom(block: int, layout: Layout, ghost h0: Heap, ghost m0: Memory) returns (ptr: int)
      requires LayoutOk(p, layout) && Inv(p, h0) && HeadersOk(p, h0.blocks, m0) && IsFree(h0.blocks, block)
      requires SearchSize(p, layout).Some? && SearchSize(p, layout).value <= h0.blocks[block].size
      requires ListsRep() && ListsOk(p, h.lists, FreeBlocks(h0.blocks) - {block})
      requires h == h0.(lists := Unlink(p, h0.lists, block, h0.blocks[block].size))
      requires forall a {:trigger Load(mem, a)} :: a - H(p) !in FreeBlocks(h0.blocks) ==> Load(mem, a) == Load(m0, a)
      modifies this, slBitmap, firstFree
      ensures Valid()
      ensures AllocateAt(p, h0, block, layout) == Done(h, ptr) && 0 < ptr
      ensures OnlyCells(p, h0.blocks, h.blocks, 0, 0, m0, mem)
      ensures forall b {:trigger PayloadKept(h0.blocks, m0, mem, b)} :: PayloadKept(h0.blocks, m0, mem, b)
      ensures OutsideKept(p, h0.pools, m0, mem)
    {
      hide Pow2, G, H, Granular, SearchSize, BitmapsOk, LinksOk, ListsOk, TilingOk, HeadersOk, RoundUp, RoundDown,
        ListOf, Link, Unlink, SizeBits, SizeWord, OutsideKept, PayloadStart, Load, Store, MaskDown, Retile, PayloadOk,
        Reshape, CanReshape, UnlinkAll, OnlyCells;
      AllocateAtOk(p, h0, block, layout);
      AllocateNoOverflow(p, h0, block, layout);
      ReadHeader(p, h0.pools, h0.blocks, m0, block);
      HasNext(p, h0.pools, h0.blocks, block);
      HeaderNotLink(p, h0.pools, h0.blocks, block);
      HeaderNotLink(p, h0.pools, h0.blocks, block + h0.blocks[block].size);
      UnlinkAllIs(p, h0.lists, h0.blocks, block, block);
      assert (set x | x in [block]) == {block};
      ghost var start := PayloadStart(p, block, layout.alignLog);
      RoundingIs(p, block, layout.alignLog, start - block + layout.size);

      // decide the starting address of the payload and the size of the used block
      var next := block + SizeBits(p, Load(mem, block).w0);
      ptr := MaskDown(p, block + H(p) + (Pow2(layout.alignLog) - 1), layout.alignLog);
      var newSize := MaskDown(p, Plus(p, Plus(p, ptr - block, layout.size), G(p)) - 1, p.gl);
      ghost var m1 := mem;
      Commit(block, newSize, next, ptr, layout, h0, m0, [block]);
      LinkCells(p, h0.blocks, h.blocks, m0, m1);
      CellsTwice(p, h0.blocks, h.blocks, 0, 0, m0, m1, mem);
      FreeHasNoPayload(p, h0, block, m0, mem);
    }

    /** Turn the range `[lo, hi)`, whose free blocks have been unlinked, into one free block. */
    method CommitFree(lo: int, size: int, hi: int, ghost h0: Heap, ghost m0: Memory, ghost drop: seq<int>)
      requires Inv(p, h0) && HeadersOk(p, h0.blocks, m0) && size == hi - lo
      requires CanReshape(p, h0, lo, hi, hi, Free, drop)
      requires forall i :: 0 <= i < |drop| ==> drop[i] in h0.blocks
      requires Detached(h0, m0, drop)
      modifies this, slBitmap, firstFree
      ensures Valid()
      ensures h == Reshape(p, h0, lo, hi, hi, Free, drop)
      ensures forall b {:trigger PayloadKept(h0.blocks, m0, mem, b)} ::
                !(lo <= b < hi) ==> PayloadKept(h0.blocks, m0, mem, b)
      ensures OnlyCells(p, h0.blocks, h.blocks, 0, 0, m0, mem)
      ensures OutsideKept(p, h0.pools, m0, mem)
    {
      hide Pow2, G, H, BitmapsOk, LinksOk, ListsOk, TilingOk, HeadersOk, ListOf, Link, PayloadKept, OutsideKept, Load,
        Store, Retile, UnlinkAll, Or, OnlyCells;
      MergePlan(p, h0, lo, hi, drop);
      ReshapeOk(p, h0, lo, hi, hi, Free, drop);
      ghost var free, m1 := FreeBlocks(h0.blocks) - (set x | x in drop), mem;
      mem := Store(mem, lo, Cell(size, Load(mem, lo).w1));
      LinksKept(p, h.lists, free, m1, mem);
      LinkFreeBlock(lo, size, free);
      ghost var m2 := mem;
      mem := Store(mem, hi, Cell(Load(mem, hi).w0, lo));
      LinksKept(p, h.lists, free[lo := size], m2, mem);
      assert RetileWrites(p, h0.blocks, lo, hi, hi, Free, m0, mem);
      AfterReshape(p, h0, lo, hi, hi, Free, drop, m0, mem);
      h := Heap(Retile(h0.blocks, lo, hi, hi, Free), h0.pools, h.lists);
      MergeCells(p, h0.blocks, lo, hi, m0, mem);
    }

    /** Free a used block and merge it with its free neighbours. */
    method DeallocateBlock(b: int)
      requires Valid() && IsUsed(h.blocks, b)
      modifies this, slBitmap, firstFree
      ensures Valid() && h == Operations.Deallocate(p, old(h), b)
      ensures forall x {:trigger PayloadKept(old(h.blocks), old(mem), mem, x)} ::
                x != b ==> PayloadKept(old(h.blocks), old(mem), mem, x)
      ensures OnlyCells(p, old(h.blocks), h.blocks, 0, 0, old(mem), mem)
      ensures OutsideKept(p, old(h.pools), old(mem), mem)
    {
      hide Pow2, G, H, ListsRep, Inv, HeadersOk, PayloadKept, OutsideKept, Load, UnlinkAll, SizeBits, UsedBit,
        CanReshape, Reshape, FreeEnd, MaskDown, Detached, Top, OnlyCells;
      ghost var h0, m0, drop := h, mem, [];
      ReadAround(p, h, mem, b);
      DeallocateReshapes(p, h, b);
      DetachedNothing();

      var word, prev := Load(mem, b).w0, Load(mem, b).w1;
      var size := MaskDown(p, word, 1);
      // merge with the next block if it is free
      var next := b + SizeBits(p, word);
      var nextWord := Load(mem, next).w0;
      if !UsedBit(nextWord) {
        size := size + nextWord;
        Detach(next, nextWord, h0, m0, []);
        next := next + SizeBits(p, nextWord);
        drop := drop + [b + h0.blocks[b].size];
      }
      // merge with the previous block if it is free
      var block := b;
      if prev != 0 {
        DetachedLoad(h0, m0, drop, prev);
        var prevWord := Load(mem, prev).w0;
        if !UsedBit(prevWord) {
          size := size + prevWord;
          Detach(prev, prevWord, h0, m0, drop);
          drop := drop + [prev];
          block := prev;
        }
      }
      assert drop == NextFree(h0, b) + PrevFree(h0, b);
      CommitFree(block, size, next, h0, m0, drop);
      NeighboursHaveNoPayload(p, h0, b, m0, mem);
    }

    lemma DetachedLoad(h0: Heap, m0: Memory, drop: seq<int>, a: int)
      requires forall i :: 0 <= i < |drop| ==> drop[i] in h0.blocks
      requires Detached(h0, m0, drop) && !IsFree(h0.blocks, a - H(p))
      ensures Load(mem, a) == Load(m0, a)
    {
    }

    lemma DetachedNothing()
      requires Valid()
      ensures Detached(h, mem, [])
    {
      hide ListsRep, Inv, HeadersOk, ListsOk;
      assert FreeBlocks(h.blocks) - (set x | x in []) == FreeBlocks(h.blocks);
      ListsOkOf();
    }

    lemma ListsOkOf()
      requires Valid()
      ensures ListsOk(p, h.lists, FreeBlocks(h.blocks))
    {
    }

    lemma DetachedCells(h0: Heap, m0: Memory, drop: seq<int>, bs: Tiling)
      requires forall i :: 0 <= i < |drop| ==> drop[i] in h0.blocks
      requires Detached(h0, m0, drop)
      ensures OnlyCells(p, h0.blocks, bs, 0, 0, m0, mem)
    {
      hide ListsRep, ListsOk, OnlyCells, Load, H;
      LinkCells(p, h0.blocks, bs, m0, mem);
    }

    lemma DetachedReady(h0: Heap, m0: Memory, drop: seq<int>, lo: int, hi: int)
      requires forall i :: 0 <= i < |drop| ==> drop[i] in h0.blocks
      requires Detached(h0, m0, drop) && Inv(p, h0) && lo in h0.blocks && hi in h0.blocks
      ensures ListsRep() && ListsOk(p, h.lists, FreeBlocks(h0.blocks) - (set x | x in drop))
      ensures h == h0.(lists := UnlinkAll(p, h0.lists, h0.blocks, drop))
      ensures Load(mem, lo) == Load(m0, lo) && Load(mem, hi) == Load(m0, hi) && Kept(p, h0.blocks, lo, hi, m0, mem)
      ensures forall a, b :: IsUsed(h0.blocks, b) && b < a < b + h0.blocks[b].size ==> Load(mem, a) == Load(m0, a)
    {
      hide ListsRep, Inv, ListsOk, Load, H;
      NotHalfway(p, h0, lo);
      NotHalfway(p, h0, hi);
      forall a, b | IsUsed(h0.blocks, b) && b < a < b + h0.blocks[b].size
        ensures Load(mem, a) == Load(m0, a)
      {
        PayloadNotLink(p, h0, b, a);
      }
    }

    /** Resize a used block without moving it, taking from or adding to the free space behind it. */
    method ResizeTo(ptr: int, b: int, size: int, layout: Layout)
      requires Valid() && IsUsed(h.blocks, b) && layout.alignLog == h.blocks[b].kind.layout.alignLog
      requires h.blocks[b].kind.ptr == ptr >= b && 0 <= size <= FreeEnd(p, h, b) - b
      requires BlockSize(p, ptr - b, layout.size) == Some(size)
      modifies this, slBitmap, firstFree
      ensures Valid()
      ensures 0 < size
      ensures h == Reshape(p, old(h), b, b + size, FreeEnd(p, old(h), b), Used(ptr, layout), NextFree(old(h), b))
      ensures Copied(old(mem), ptr, mem, ptr, Surviving(old(h), b, layout.size))
      ensures forall x {:trigger PayloadKept(old(h.blocks), old(mem), mem, x)} ::
                x != b ==> PayloadKept(old(h.blocks), old(mem), mem, x)
      ensures OnlyCells(p, old(h.blocks), h.blocks, 0, 0, old(mem), mem)
      ensures OutsideKept(p, old(h.pools), old(mem), mem)
    {
      hide Pow2, G, H, ListsRep, Inv, HeadersOk, PayloadKept, OutsideKept, Load, UnlinkAll, SizeBits, UsedBit,
        CanReshape, Reshape, FreeEnd, MaskDown, Detached, Top, BlockSize, Kept, ListsOk, OnlyCells;
      ghost var h0, m0 := h, mem;
      ReadAround(p, h, mem, b);
      PayloadShape(p, h, b);
      ResizeReshapes(p, h, b, layout, size);
      BlockSizeOk(p, ptr - b, layout.size);
      DetachedNothing();

      var next := b + SizeBits(p, Load(mem, b).w0);
      var nextWord := Load(mem, next).w0;
      if !UsedBit(nextWord) {
        Detach(next, nextWord, h0, m0, []);
        next := next + SizeBits(p, nextWord);
      }
      ghost var drop := NextFree(h0, b);
      assert drop == [] || [] + drop == drop;
      DetachedReady(h0, m0, drop, b, next);
      ghost var m1 := mem;
      DetachedCells(h0, m0, drop, Retile(h0.blocks, b, b + size, next, Used(ptr, layout)));
      Commit(b, size, next, ptr, layout, h0, m0, drop);
      ReshapeBlocks(p, h0, b, b + size, next, Used(ptr, layout), drop);
      CellsTwice(p, h0.blocks, h.blocks, 0, 0, m0, m1, mem);
      NeighboursHaveNoPayload(p, h0, b, m0, mem);
    }

    /** Copy bytes within a range that holds no listed block. */
    method CopyBytes(src: int, dst: int, n: nat, ghost lo: int, ghost hi: int, ghost free: map<int, int>)
      requires ListsRep() && ListsOk(p, h.lists, free)
      requires lo < dst && dst + n <= hi
      requires forall x :: x in free ==> x + G(p) <= lo || hi <= x
      modifies this`mem
      ensures ListsRep() && mem == Move(old(mem), src, dst, n)
    {
      hide BitmapsOk, LinksOk, ListsOk, G, H, Load, Move;
      mem := Move(mem, src, dst, n);
      LinksKept(p, h.lists, free, old(mem), mem);
    }

    /** Move a used block down into the free block before it; the result is 0 if that does not help. */
    method MoveDownTo(ptr: int, b: int, layout: Layout) returns (q: int)
      requires Valid() && LayoutOk(p, layout) && IsUsed(h.blocks, b)
      requires layout.alignLog == h.blocks[b].kind.layout.alignLog && h.blocks[b].kind.ptr == ptr
      requires IsFree(h.blocks, h.blocks[b].prev) && b + h.blocks[b].size < ptr + layout.size
      modifies this, slBitmap, firstFree
      ensures Valid()
      ensures match MoveDown(p, old(h), b, layout)
              case Fail => q == 0 && unchanged(this, slBitmap, firstFree)
              case Done(h', r) =>
                && 0 < q == r && h == h'
                && Copied(old(mem), ptr, mem, q, Surviving(old(h), b, layout.size))
                && OnlyCells(p, old(h.blocks), h.blocks, q, q + Surviving(old(h), b, layout.size), old(mem), mem)
      ensures forall x {:trigger PayloadKept(old(h.blocks), old(mem), mem, x)} ::
                x != b ==> PayloadKept(old(h.blocks), old(mem), mem, x)
      ensures OutsideKept(p, old(h.pools), old(mem), mem)
    {
      hide Pow2, G, H, ListsRep, Inv, HeadersOk, PayloadKept, OutsideKept, Load, SizeBits, UsedBit, CanReshape, Reshape,
        FreeEnd, MaskDown, Top, BlockSize, PayloadStart, RoundDown, MoveDown, Copied, OnlyCells;
      NothingChanged(p, h.pools, h.blocks, mem);
      ReadAround(p, h, mem, b);
      MovePlan(p, h, b, layout);
      var lo := Load(mem, b).w1;
      var next := b + SizeBits(p, Load(mem, b).w0);
      var nextWord := Load(mem, next).w0;
      var end := if UsedBit(nextWord) then next else next + SizeBits(p, nextWord);
      // decide the starting address of the payload
      q := MaskDown(p, Plus(p, Plus(p, lo, H(p)), Pow2(layout.alignLog)) - 1, layout.alignLog);
      var newSize := BlockSize(p, q - lo, layout.size);
      if newSize.None? || newSize.value > end - lo {
        return 0;
      }
      MoveReshapes(p, h, b, layout);
      MoveInto(ptr, b, layout, q, newSize.value);
    }

    /** The rest of moving down, once the new place is known to be large enough. */
    method MoveInto(ptr: int, b: int, layout: Layout, q: int, size: nat)
      requires Valid() && IsUsed(h.blocks, b) && h.blocks[b].kind.ptr == ptr
      requires IsFree(h.blocks, h.blocks[b].prev) && b + h.blocks[b].size < ptr + layout.size
      requires 0 < size <= FreeEnd(p, h, b) - h.blocks[b].prev
      requires CanReshape(p, h, h.blocks[b].prev, h.blocks[b].prev + size, FreeEnd(p, h, b), Used(q, layout),
                          [h.blocks[b].prev] + NextFree(h, b))
      modifies this, slBitmap, firstFree
      ensures Valid()
      ensures var lo := old(h.blocks[b].prev);
              h == Reshape(p, old(h), lo, lo + size, FreeEnd(p, old(h), b), Used(q, layout), [lo] + NextFree(old(h), b))
      ensures Copied(old(mem), ptr, mem, q, Surviving(old(h), b, layout.size))
      ensures forall x {:trigger PayloadKept(old(h.blocks), old(mem), mem, x)} ::
                x != b ==> PayloadKept(old(h.blocks), old(mem), mem, x)
      ensures OnlyCells(p, old(h.blocks), h.blocks, q, q + Surviving(old(h), b, layout.size), old(mem), mem)
      ensures OutsideKept(p, old(h.pools), old(mem), mem)
    {
      hide Pow2, G, H, ListsRep, Inv, HeadersOk, PayloadKept, OutsideKept, Load, UnlinkAll, SizeBits, UsedBit,
        CanReshape, Reshape, FreeEnd, Detached, Top, Kept, ListsOk, Move, OnlyCells, Copied;
      ghost var h0, m0 := h, mem;
      ReadAround(p, h, mem, b);
      PayloadShape(p, h, b);
      var lo := Load(mem, b).w1;
      var next := b + SizeBits(p, Load(mem, b).w0);
      var nextWord := Load(mem, next).w0;
      var end := if UsedBit(nextWord) then next else next + SizeBits(p, nextWord);
      ghost var drop := [lo] + NextFree(h0, b);
      ReshapePlan(p, h0, lo, lo + size, end, Used(q, layout), drop);

      // the new size exceeds the old payload, so that all of it is copied
      var n := if layout.size < next - ptr then layout.size else next - ptr;
      assert n == Surviving(h0, b, layout.size);
      DetachAndCopy(ptr, b, lo, next, end, q, n);
      ghost var m2 := mem;
      Commit(lo, size, end, q, layout, h0, m0, drop);
      NeighboursHaveNoPayload(p, h0, b, m0, mem);
      CopiedOn(m0, ptr, m2, mem, q, n);
      CellsAfterMove(p, h0.blocks, h.blocks, q, q + n, m0, m2, mem);
    }

    /** Unlink the free blocks around `b` and copy its payload down. */
    method DetachAndCopy(ptr: int, b: int, lo: int, next: int, end: int, q: int, n: nat)
      requires Valid() && IsUsed(h.blocks, b) && h.blocks[b].kind.ptr == ptr && ptr + n <= b + h.blocks[b].size
      requires lo == h.blocks[b].prev && IsFree(h.blocks, lo)
      requires next == b + h.blocks[b].size && end == FreeEnd(p, h, b)
      requires lo < q && q + n <= end
      requires forall x :: x in FreeBlocks(h.blocks) && x !in [lo] + NextFree(h, b) ==> x + G(p) <= lo || end <= x
      modifies this, slBitmap, firstFree
      ensures var drop := [lo] + NextFree(old(h), b);
              && ListsRep() && ListsOk(p, h.lists, FreeBlocks(old(h.blocks)) - (set x | x in drop))
              && h == old(h).(lists := UnlinkAll(p, old(h.lists), old(h.blocks), drop))
      ensures Load(mem, lo) == old(Load(mem, lo)) && Load(mem, end) == old(Load(mem, end))
      ensures Kept(p, old(h.blocks), lo, end, old(mem), mem)
      ensures Copied(old(mem), ptr, mem, q, n)
      ensures OnlyCells(p, old(h.blocks), old(h.blocks), q, q + n, old(mem), mem)
    {
      hide Pow2, G, H, ListsRep, Inv, HeadersOk, Load, UnlinkAll, SizeBits, UsedBit, FreeEnd, Detached, Top, Kept,
        ListsOk, Move, Copied, OnlyCells;
      ghost var h0, m0 := h, mem;
      ReadAround(p, h, mem, b);
      PayloadShape(p, h, b);
      ghost var drop := [lo] + NextFree(h0, b);
      assert [] + [lo] == [lo] && [lo] + [] == [lo];
      DetachedNothing();
      Detach(lo, Load(mem, lo).w0, h0, m0, []);
      DetachedLoad(h0, m0, [lo], next);
      if !UsedBit(Load(mem, next).w0) {
        Detach(next, Load(mem, next).w0, h0, m0, [lo]);
      }
      DetachedReady(h0, m0, drop, lo, end);
      ghost var m1 := mem;
      DetachedCells(h0, m0, drop, h0.blocks);
      MovedReady(p, h0.blocks, lo, end, end, m0, mem, ptr, q, n);
      CopyBytes(ptr, q, n, lo, end, FreeBlocks(h0.blocks) - (set x | x in drop));
      PayloadCopied(p, h0, b, m0, m1, mem, q, n);
      MovedCells(p, h0.blocks, q, n, m0, m1, mem);
    }

    /** Record a new layout for a block that keeps its size; nothing in memory changes. */
    ghost method Relabel(ptr: int, b: int, layout: Layout)
      requires Valid() && IsUsed(h.blocks, b) && layout.alignLog == h.blocks[b].kind.layout.alignLog
      requires h.blocks[b].kind.ptr == ptr >= b && BlockSize(p, ptr - b, layout.size) == Some(h.blocks[b].size)
      modifies this`h
      ensures Valid()
      ensures var n := b + old(h.blocks[b].size);
              && n in old(h.blocks) && b < n
              && h == Reshape(p, old(h), b, n, n, Used(ptr, layout), [])
    {
      hide BitmapsOk, LinksOk, ListsOk, TilingOk, HeadersOk, BlockSize, Retile;
      AfterSameSize(p, h, mem, b, layout);
      h := Reshape(p, h, b, b + h.blocks[b].size, b + h.blocks[b].size, Used(ptr, layout), []);
    }

    /** Try to resize the allocation `ptr` of block `b` in place; the result is 0 if that is impossible. */
    method ReallocateInplace(ptr: int, b: int, layout: Layout) returns (q: int)
      requires Valid() && LayoutOk(p, layout) && IsUsed(h.blocks, b)
      requires layout.alignLog == h.blocks[b].kind.layout.alignLog && h.blocks[b].kind.ptr == ptr
      modifies this, slBitmap, firstFree
      ensures Valid()
      ensures match Operations.ReallocateInplace(p, old(h), b, layout)
              case Fail =>
                q == 0 && unchanged(this, slBitmap, firstFree) && old(b + h.blocks[b].size) < ptr + layout.size
              case Done(h', r) =>
                && 0 < q == r && h == h'
                && Copied(old(mem), ptr, mem, q, Surviving(old(h), b, layout.size))
                && OnlyCells(p, old(h.blocks), h.blocks, q, q + Surviving(old(h), b, layout.size), old(mem), mem)
      ensures forall x {:trigger PayloadKept(old(h.blocks), old(mem), mem, x)} ::
                x != b ==> PayloadKept(old(h.blocks), old(mem), mem, x)
      ensures OutsideKept(p, old(h.pools), old(mem), mem)
    {
      hide Pow2, G, H, ListsRep, HeadersOk, PayloadKept, OutsideKept, Load, SizeBits, UsedBit, CanReshape, Reshape,
        FreeEnd, Top, BlockSize, MoveDown, TilingOk, ListsOk, Granular, BitmapsOk, LinksOk, OnlyCells;
      NothingChanged(p, h.pools, h.blocks, mem);
      ReadAround(p, h, mem, b);
      PayloadShape(p, h, b);
      InplaceCases(p, h, b, layout);

      var newSize := BlockSize(p, ptr - b, layout.size);
      if newSize.None? {
        return 0;
      }
      var oldSize := Load(mem, b).w0 - SIZE_USED;
      if newSize.value == oldSize {
        // no size change
        Relabel(ptr, b, layout);
        NoCells(p, old(h.blocks), h.blocks, ptr, ptr + Surviving(old(h), b, layout.size), mem);
        return ptr;
      }
      var nextWord := Load(mem, b + oldSize).w0;
      if newSize.value < oldSize || (!UsedBit(nextWord) && newSize.value - oldSize <= nextWord) {
        ResizeTo(ptr, b, newSize.value, layout);
        MoreCells(p, old(h.blocks), h.blocks, ptr, ptr + Surviving(old(h), b, layout.size), old(mem), mem);
        return ptr;
      }
      var prev := Load(mem, b).w1;
      if prev == 0 || UsedBit(Load(mem, prev).w0) {
        return 0;
      }
      q := MoveDownTo(ptr, b, layout);
    }

    /** The user writes into a live payload. */
    method WritePayload(b: int, a: int, c: Cell)
      requires Valid() && IsUsed(h.blocks, b) && h.blocks[b].kind.ptr <= a < b + h.blocks[b].size
      modifies this`mem
      ensures Valid() && mem == Store(old(mem), a, c)
      ensures OutsideKept(p, h.pools, old(mem), mem)
      ensures forall x {:trigger PayloadKept(h.blocks, old(mem), mem, x)} ::
                x != b ==> PayloadKept(h.blocks, old(mem), mem, x)
    {
      hide BitmapsOk, LinksOk, HeadersOk, Inv, Load, OutsideKept, PayloadKept;
      mem := Store(mem, a, c);
      PayloadWrite(p, h, b, old(mem), mem);
    }

    /** The owner of the memory writes outside the pools, or into the unused half of a sentinel. */
    method WriteUnused(a: int, c: Cell)
      requires Valid() && forall s :: s in h.pools ==> !(s <= a < h.pools[s] - H(p))
      modifies this`mem
      ensures Valid() && mem == Store(old(mem), a, c)
      ensures forall x {:trigger PayloadKept(h.blocks, old(mem), mem, x)} :: PayloadKept(h.blocks, old(mem), mem, x)
    {
      hide BitmapsOk, LinksOk, HeadersOk, Inv, Load, PayloadKept, H;
      mem := Store(mem, a, c);
      UnusedWrite(p, h, a, old(mem), mem);
    }

    /** Copy the payload of block `b` to the fresh block `x`. */
    method CopyPayload(src: int, dst: int, n: nat, ghost b: int, ghost x: int)
      requires Valid() && IsUsed(h.blocks, b) && IsUsed(h.blocks, x) && b != x
      requires src == h.blocks[b].kind.ptr && src + n <= b + h.blocks[b].size
      requires dst == h.blocks[x].kind.ptr && dst + n <= x + h.blocks[x].size
      modifies this`mem
      ensures Valid() && mem == Move(old(mem), src, dst, n)
      ensures OutsideKept(p, h.pools, old(mem), mem)
      ensures forall y {:trigger PayloadKept(h.blocks, old(mem), mem, y)} ::
                y != x ==> PayloadKept(h.blocks, old(mem), mem, y)
    {
      hide BitmapsOk, LinksOk, HeadersOk, Inv, Load, OutsideKept, PayloadKept, H;
      // the two payloads do not overlap
      assert src + n <= dst || dst + n <= src by {
        PayloadAway(p, h, b, x);
        PayloadAway(p, h, x, b);
      }
      mem := Move(mem, src, dst, n);
      PayloadWrite(p, h, x, old(mem), mem);
    }

    /** Free the allocation `ptr` of block `b`, whose alignment is known. */
    method Deallocate(ptr: int, alignLog: nat, ghost b: int)
      requires Valid() && IsUsed(h.blocks, b)
      requires h.blocks[b].kind.ptr == ptr && h.blocks[b].kind.layout.alignLog == alignLog
      modifies this, slBitmap, firstFree
      ensures Valid() && h == Operations.Deallocate(p, old(h), b)
      ensures forall x {:trigger PayloadKept(old(h.blocks), old(mem), mem, x)} ::
                x != b ==> PayloadKept(old(h.blocks), old(mem), mem, x)
      ensures OnlyCells(p, old(h.blocks), h.blocks, 0, 0, old(mem), mem)
      ensures OutsideKept(p, old(h.pools), old(mem), mem)
    {
      hide ListsRep, Inv, HeadersOk, Load, PayloadKept, OutsideKept, OnlyCells;
      HeaderLookup(p, h, mem, b);
      DeallocateBlock(HeaderFor(p, mem, ptr, alignLog));
    }

    /** Free the allocation `ptr` of block `b`, whose alignment is not known. */
    method DeallocateUnknownAlign(ptr: int, ghost b: int)
      requires Valid() && IsUsed(h.blocks, b) && h.blocks[b].kind.ptr == ptr
      modifies this, slBitmap, firstFree
      ensures Valid() && h == Operations.Deallocate(p, old(h), b)
      ensures forall x {:trigger PayloadKept(old(h.blocks), old(mem), mem, x)} ::
                x != b ==> PayloadKept(old(h.blocks), old(mem), mem, x)
      ensures OnlyCells(p, old(h.blocks), h.blocks, 0, 0, old(mem), mem)
      ensures OutsideKept(p, old(h.pools), old(mem), mem)
    {
      hide ListsRep, Inv, HeadersOk, Load, PayloadKept, OutsideKept, OnlyCells;
      HeaderLookup(p, h, mem, b);
      DeallocateBlock(HeaderForAny(p, mem, ptr));
    }

    /** The bytes that the allocation `ptr` can use. */
    method SizeOfAllocation(ptr: int, alignLog: nat, ghost b: int) returns (n: int)
      requires Valid() && IsUsed(h.blocks, b)
      requires h.blocks[b].kind.ptr == ptr && h.blocks[b].kind.layout.alignLog == alignLog
      ensures ptr + n == b + h.blocks[b].size && h.blocks[b].kind.layout.size <= n
    {
      hide ListsRep, Inv, HeadersOk, Load, SizeBits, UsedBit, SentinelBit, Top;
      HeaderLookup(p, h, mem, b);
      ReadAround(p, h, mem, b);
      PayloadShape(p, h, b);
      var block := HeaderFor(p, mem, ptr, alignLog);
      n := block + (Load(mem, block).w0 - SIZE_USED) - ptr;
    }

    /** Shrink or grow the allocation `ptr` of block `b`, moving it if necessary; the result is 0 on failure. */
    method Reallocate(ptr: int, layout: Layout, ghost b: int) returns (q: int)
      requires Valid() && LayoutOk(p, layout) && IsUsed(h.blocks, b)
      requires h.blocks[b].kind.ptr == ptr && h.blocks[b].kind.layout.alignLog == layout.alignLog
      modifies this, slBitmap, firstFree
      ensures Valid()
      ensures match Operations.Reallocate(p, old(h), b, layout)
              case Fail =>
                q == 0 && unchanged(this, slBitmap, firstFree) && old(b + h.blocks[b].size) < ptr + layout.size
              case Done(h', r) =>
                && 0 < q == r && h == h'
                && Copied(old(mem), ptr, mem, q, Surviving(old(h), b, layout.size))
      ensures forall x {:trigger PayloadKept(old(h.blocks), old(mem), mem, x)} ::
                x != b ==> PayloadKept(old(h.blocks), old(mem), mem, x)
      ensures OutsideKept(p, old(h.pools), old(mem), mem)
    {
      hide ListsRep, Inv, HeadersOk, Load, PayloadKept, OutsideKept, Operations.Allocate, Operations.Deallocate,
        Operations.ReallocateInplace, Copied, Move;
      HeaderLookup(p, h, mem, b);
      var block := HeaderFor(p, mem, ptr, layout.alignLog);
      var oldSize := SizeOfAllocation(ptr, layout.alignLog, b);
      // first try to shrink or grow the block in place
      q := ReallocateInplace(ptr, block, layout);
      if q != 0 {
        return;
      }
      // allocate a whole new memory block
      ghost var h0, m0 := h, mem;
      NothingChanged(p, h.pools, h.blocks, mem);
      q := Allocate(layout);
      if q == 0 {
        return;
      }
      AllocateKeepsUsed(p, h0, layout, b);
      ghost var x := AllocatedAt(p, h0, layout);
      ghost var m1 := mem;
      // move the existing data
      CopyPayload(ptr, q, oldSize, b, x);
      ghost var h1, m2 := h, mem;
      Deallocate(ptr, layout.alignLog, b);
      CopiedAcross(p, h0, b, m0, h1, x, m1, m2, mem, oldSize);
      MovedAway(p, h0, layout, b, x, h1, m0, m1, m2, mem);
    }

    /** Write a free block and a sentinel into `[start, start + size)` and link the free block. */
    method CreatePool(start: int, size: int, ghost free: map<int, int>)
      requires ListsRep() && ListsOk(p, h.lists, free)
      requires 0 < start && 2 * G(p) <= size && ListOf(p, size - G(p)).Some?
      requires forall x :: x in free ==> x + G(p) <= start || start + size <= x
      modifies this, slBitmap, firstFree
      ensures ListsRep() && ListsOk(p, h.lists, free[start := size - G(p)])
      ensures h == old(h).(lists := Link(p, old(h.lists), start, size - G(p)))
      ensures Load(mem, start) == Cell(size - G(p), 0)
      ensures Load(mem, start + size - G(p)) == Cell(SizeWord(Sentinel, G(p)), start)
      ensures forall a {:trigger Load(mem, a)} ::
                !(start <= a < start + size - H(p)) && a - H(p) !in free ==> Load(mem, a) == old(Load(mem, a))
    {
      hide ListOf, BitmapsOk, LinksOk, ListsOk, Link, Pow2, G, H, Load, Store, SizeWord;
      mem := Store(mem, start, Cell(size - G(p), 0));
      mem := Store(mem, start + size - G(p), Cell(SizeWord(Sentinel, G(p)), start));
      LinksKept(p, h.lists, free, old(mem), mem);
      LinkFreeBlock(start, size - G(p), free);
    }

    /** Cut `[start, start + size)` into back-to-back pools; the result is the number of bytes used. */
    method CreatePools(start: int, size: int, ghost free: map<int, int>) returns (r: int)
      requires ListsRep() && ListsOk(p, h.lists, free)
      requires 0 < start && ChunksGranular(p, size) && 0 <= size && start + size <= Top(p)
      requires forall x :: x in free ==> x + G(p) <= start || start + size <= x
      modifies this, slBitmap, firstFree
      ensures ListsRep()
      ensures h == old(h).(lists := ChunkLists(p, old(h.lists), start, size))
      ensures r == ChunkedLength(p, size)
      ensures HeaderCells(ChunkBlocks(p, start, size), mem)
      ensures forall a {:trigger Load(mem, a)} ::
                !(start <= a < start + r - H(p)) && a - H(p) !in free ==> Load(mem, a) == old(Load(mem, a))
    {
      hide ListOf, ListsRep, ListsOk, Link, Pow2, G, H, Load, SizeWord, Chunk, Aligned, Top, ChunkBlocks, ChunkLists,
        ChunkedLength, WithPool, Laid, HeaderCells, ChunksGranular;
      ChunksEmpty(p);
      var left, cursor := size, start;
      ghost var done: Tiling, listed := map[], free;
      assert map[] + ChunkBlocks(p, start, size) == ChunkBlocks(p, start, size);
      while left >= 2 * G(p)
        invariant 0 <= left && cursor + left == start + size && start <= cursor && ChunksGranular(p, left)
        invariant ListsRep() && ListsOk(p, h.lists, listed)
        invariant h == old(h).(lists := h.lists)
        invariant ChunkLists(p, h.lists, cursor, left) == ChunkLists(p, old(h.lists), start, size)
        invariant done + ChunkBlocks(p, cursor, left) == ChunkBlocks(p, start, size)
        invariant cursor - start + ChunkedLength(p, left) == ChunkedLength(p, size)
        invariant Laid(p, done, start, cursor, listed) && HeaderCells(done, mem)
        invariant forall x :: x in listed ==> x + G(p) <= cursor || start + size <= x
        invariant forall x :: x in listed ==> x in free || start <= x < cursor
        invariant forall a {:trigger Load(mem, a)} ::
                    !(start <= a < cursor - H(p)) && a - H(p) !in free ==> Load(mem, a) == old(Load(mem, a))
      {
        ChunkStep(p, h.lists, done, start, cursor, left, listed);
        ChunkHasList(p, cursor, left);
        ghost var m := mem;
        var c := Chunk(p, left);
        CreatePool(cursor, c, listed);
        LaidStep(p, done, start, cursor, c, listed);
        HeadersStep(p, done, start, cursor, c, listed, m, mem);
        done, listed := WithPool(p, done, cursor, c), listed[cursor := c - G(p)];
        left, cursor := left - c, cursor + c;
      }
      assert done + map[] == done;
      r := cursor - start;
    }

    /** Create pools in well-aligned memory; the result is the number of bytes used, 0 if there are too few. */
    method InsertFreeBlockPtrAligned(start: int, size: int) returns (r: int)
      requires Valid() && PoolRegion(p, h, start, size)
      modifies this, slBitmap, firstFree
      ensures Valid()
      ensures h == InsertAligned(p, old(h), start, size) && r == ChunkedLength(p, size)
      ensures OutsideKeptBut(p, old(h.pools), start, start + r - H(p), old(mem), mem)
      ensures forall x {:trigger PayloadKept(old(h.blocks), old(mem), mem, x)} ::
                PayloadKept(old(h.blocks), old(mem), mem, x)
    {
      hide BitmapsOk, LinksOk, ListsOk, TilingOk, HeadersOk, OutsideKeptBut, PayloadKept, Load, G, H, Aligned, Top,
        ChunkBlocks, ChunkPools, ChunkLists, ChunkedLength, ChunksGranular, RoundDown, Clear;
      ghost var h0, m0, n := h, mem, RoundDown(size, G(p));
      RoundedRegion(p, h, start, size);
      forall x | x in FreeBlocks(h.blocks)
        ensures x + G(p) <= start || start + size <= x
      {
        AwayFromRegion(p, h, start, size, x);
        ReadHeader(p, h.pools, h.blocks, mem, x);
      }
      InsertOk(p, h, start, n);
      r := CreatePools(start, size, FreeBlocks(h.blocks));
      ChunkedLengthIs(p, n);
      AfterInsert(p, h0, start, n, start + r - H(p), m0, mem);
      h := InsertAligned(p, h0, start, size);
    }

    /** Create pools in arbitrary memory; the result counts from its beginning. */
    method InsertFreeBlockPtr(start: int, len: int) returns (r: int)
      requires Valid() && 0 < start < Top(p) && 0 <= len && start + len <= Top(p)
      requires 0 < len ==> Clear(h.pools, start, start + len)
      modifies this, slBitmap, firstFree
      ensures Valid()
      ensures h == InsertPtr(p, old(h), start, len) && r == InsertedLength(p, start, len)
      ensures r == 0 ==> unchanged(this, slBitmap, firstFree)
      ensures OutsideKeptBut(p, old(h.pools), start, start + r - H(p), old(mem), mem)
      ensures forall x {:trigger PayloadKept(old(h.blocks), old(mem), mem, x)} ::
                PayloadKept(old(h.blocks), old(mem), mem, x)
    {
      hide ListsRep, Inv, HeadersOk, OutsideKeptBut, PayloadKept, Load, Pow2, G, H, RoundUp, RoundDown, MaskDown,
        ChunkBlocks, ChunkPools, ChunkLists, ChunkedLength, InsertAligned, Top, Aligned, InsertPtr, InsertedLength;
      InsertPlan(p, start, len);
      InsertCases(p, h, start, len);
      NothingChangedBut(p, h.pools, h.blocks, mem, start, start - H(p));
      // round up the starting address
      var s := MaskDown(p, (start + (G(p) - 1)) % Top(p), p.gl);
      var pad := (s - start) % Top(p);
      if len < pad || len - pad < 2 * G(p) {
        return 0;
      }
      var n := MaskDown(p, len - pad, p.gl);
      GoodIsPoolRegion(p, h, s, n);
      r := InsertFreeBlockPtrAligned(s, n);
      r := r + pad;
      WiderBut(p, old(h.pools), s, start + r - H(p), start, start + r - H(p), old(mem), mem);
    }

    /** Extend the pool that ends at `start`; the result is the number of bytes incorporated. */
    method AppendFreeBlockPtr(start: int, len: int) returns (r: int)
      requires Valid() && EndsPool(p, h, start) && 0 <= len < Top(p)
      requires start + len <= Top(p) && Clear(h.pools, start, start + len)
      modifies this, slBitmap, firstFree
      ensures Valid()
      ensures h == Append(p, old(h), start, len) && r == AppendedLength(p, len)
      ensures OutsideKeptBut(p, old(h.pools), start - H(p), start + r - H(p), old(mem), mem)
      ensures forall x {:trigger PayloadKept(old(h.blocks), old(mem), mem, x)} ::
                PayloadKept(old(h.blocks), old(mem), mem, x)
    {
      hide ListsRep, Inv, HeadersOk, OutsideKeptBut, PayloadKept, Load, Pow2, G, H, RoundDown, MaskDown, ChunkBlocks,
        ChunkPools, ChunkLists, ChunkedLength, InsertAligned, Top, Aligned, Extend, EndsPool, Clear;
      AppendPlan(p, h, start, len);
      NothingChangedBut(p, h.pools, h.blocks, mem, start - H(p), start - H(p));
      // round down the length
      var n := MaskDown(p, len, p.gl);
      if MaxPoolSize(p).Some? {
        GoodIsPoolRegion(p, h, start, n);
        r := InsertFreeBlockPtrAligned(start, n);
        WiderBut(p, old(h.pools), start, start + r - H(p), start - H(p), start + r - H(p), old(mem), mem);
      } else if n == 0 {
        r := 0;
      } else {
        r := ExtendPool(start, n);
      }
    }

    /** Write the extended free block and its sentinel into `[lo, end)`. */
    method BuildExtension(lo: int, last: int, start: int, n: int, ghost h0: Heap, ghost m0: Memory,
                          ghost drop: seq<int>) returns (r: int)
      requires Inv(p, h0) && HeadersOk(p, h0.blocks, m0) && EndsPool(p, h0, start) && GoodRegion(p, h0, start, n)
      requires 0 < n
      requires MaxPoolSize(p).None? && start - G(p) in h0.blocks
      requires lo == ExtendFrom(p, h0, start) && lo in h0.blocks && last == h0.blocks[lo].prev
      requires drop == (if lo == start - G(p) then [] else [lo]) && Detached(h0, m0, drop)
      modifies this, slBitmap, firstFree
      ensures Valid()
      ensures h == Extend(p, h0, start, n) && r == start + n - lo
      ensures OutsideKeptBut(p, h0.pools, start - H(p), start + n - H(p), m0, mem)
      ensures forall x {:trigger PayloadKept(h0.blocks, m0, mem, x)} :: PayloadKept(h0.blocks, m0, mem, x)
    {
      hide ListOf, BitmapsOk, LinksOk, ListsOk, Inv, HeadersOk, OutsideKeptBut, PayloadKept, Load, Store, Pow2, G, H,
        SizeWord, Top, EndsPool, GoodRegion, UnlinkAll, ChunkBlocks, ChunkLists, ChunkedLength, HeaderCells, Unlink,
        Link, Aligned, MaxPoolSize;
      ExtendFromIs(p, h0, start, n);
      SentinelKind(p, h0, start);
      ghost var free := FreeBlocks(h0.blocks) - (set x | x in drop);
      forall x | x in free
        ensures x + G(p) <= lo || start + n <= x
      {
        OutsideExtension(p, h0, start, n, x);
      }
      ChunkWhole(p, h.lists, lo, start + n - lo);
      ExtendListsAre(p, h0, start, n, drop);
      r := CreatePools(lo, start + n - lo, free);
      FirstAndLast(p, lo, start + n - lo, mem);
      JoinPools(lo, last, start, n, h0, m0);
    }

    /** Link the created pool's first block to the last block that was not assimilated. */
    method JoinPools(lo: int, last: int, start: int, n: int, ghost h0: Heap, ghost m0: Memory)
      requires Inv(p, h0) && HeadersOk(p, h0.blocks, m0) && EndsPool(p, h0, start) && GoodRegion(p, h0, start, n)
      requires 0 < n
      requires MaxPoolSize(p).None? && start - G(p) in h0.blocks
      requires lo == ExtendFrom(p, h0, start) && lo in h0.blocks && last == h0.blocks[lo].prev && lo + G(p) <= start
      requires ListsRep() && h.lists == Extend(p, h0, start, n).lists
      requires OnlyWithin(p, h0.blocks, lo, start + n - H(p), m0, mem)
      requires Load(mem, lo).w0 == start + n - G(p) - lo
      requires Load(mem, start + n - G(p)) == Cell(SizeWord(Sentinel, G(p)), lo)
      modifies this`mem, this`h
      ensures Valid()
      ensures h == Extend(p, h0, start, n)
      ensures OutsideKeptBut(p, h0.pools, start - H(p), start + n - H(p), m0, mem)
      ensures forall x {:trigger PayloadKept(h0.blocks, m0, mem, x)} :: PayloadKept(h0.blocks, m0, mem, x)
    {
      hide BitmapsOk, LinksOk, ListsOk, TilingOk, HeadersOk, OutsideKeptBut, PayloadKept, Load, Store, Pow2, G, H,
        SizeWord, EndsPool, GoodRegion, Unlink, Link, MaxPoolSize;
      ghost var m1 := mem;
      mem := Store(mem, lo, Cell(Load(mem, lo).w0, last));
      AfterExtend(p, h0, start, n, m0, mem);
      ExtendOk(p, h0, start, n);
      h := Extend(p, h0, start, n);
      NotHalfway(p, h, lo);
      LinksKept(p, h.lists, FreeBlocks(h.blocks), m1, mem);
    }

    /** Let the new memory assimilate the sentinel before it, and the free block before that if there is one. */
    method ExtendPool(start: int, n: int) returns (r: int)
      requires Valid() && EndsPool(p, h, start) && GoodRegion(p, h, start, n) && 0 < n && MaxPoolSize(p).None?
      modifies this, slBitmap, firstFree
      ensures Valid()
      ensures start - G(p) in old(h.blocks) && h == Extend(p, old(h), start, n) && r == n
      ensures OutsideKeptBut(p, old(h.pools), start - H(p), start + n - H(p), old(mem), mem)
      ensures forall x {:trigger PayloadKept(old(h.blocks), old(mem), mem, x)} ::
                PayloadKept(old(h.blocks), old(mem), mem, x)
    {
      hide ListsRep, Inv, HeadersOk, OutsideKeptBut, PayloadKept, Load, Pow2, G, H, SizeBits, UsedBit, SizeWord, Top,
        Extend, EndsPool, GoodRegion, Detached, ListsOk, UnlinkAll, ChunkBlocks, ChunkLists, ChunkedLength, HeaderCells,
        Unlink, Link;
      ghost var h0, m0, drop := h, mem, [];
      ExtendPlan(p, h, mem, start, n);
      DetachedNothing();
      var cap := start - G(p);
      var pen := Load(mem, cap).w1;
      var lo, last := cap, pen;
      if !UsedBit(Load(mem, pen).w0) {
        Detach(pen, Load(mem, pen).w0, h0, m0, []);
        drop := [] + [pen];
        DetachedLoad(h0, m0, drop, pen);
        lo, last := pen, Load(mem, pen).w1;
      }
      r := BuildExtension(lo, last, start, n, h0, m0, drop);
      r := r - (start - lo);
    }
  }
}
