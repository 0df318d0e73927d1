/** The allocator and the reference allocator side by side: each call is reported to the reference, which accepts it. */
module Checked {
  import opened Arith
  import opened Config
  import opened Blocks
  import opened Heap
  import opened Operations
  import opened Memory
  import opened Represent
  import opened TlsfAllocator
  import opened Runs
  import opened Shadow

  /** The function that a run-length map stands for. */
  ghost function MarksOf(r: Regions): Marking {
    a => if 0 in r && 0 <= a then At(r, a) else Invalid
  }

  /** An update of the run-length map is an update of the function. */
  lemma UpdateStands(h: Heap, r: Regions, s: int, e: int, mark: Mark, r': Regions)
    requires Marks(r, s, e, mark, r') && 0 <= s && Agrees(h, Marked(MarksOf(r), s, e, mark))
    ensures Agrees(h, MarksOf(r'))
  {
    hide Live, Allocated, Pooled, At;
    forall a
      ensures AgreesAt(h, MarksOf(r'), a)
    {
      assert AgreesAt(h, Marked(MarksOf(r), s, e, mark), a);
    }
  }

  lemma SameMarks(r: Regions, s: int, e: int, mark: Mark)
    requires 0 in r && 0 <= s
    ensures AllMarked(MarksOf(r), s, e, mark) <==> AllAre(r, s, e, mark)
  {
    hide At;
    assert forall a :: s <= a < e ==> MarksOf(r)(a) == At(r, a);
  }

  lemma NewAgrees(p: Params, r: Regions)
    requires 0 in r && forall a :: 0 <= a ==> At(r, a) == Invalid
    ensures Agrees(Heap(map[], map[], EmptyLists(p)), MarksOf(r))
  {
    hide At;
    forall a
      ensures AgreesAt(Heap(map[], map[], EmptyLists(p)), MarksOf(r), a)
    {
    }
  }

  lemma LiveAddress(p: Params, h: Heap, b: int)
    requires Inv(p, h) && IsUsed(h.blocks, b)
    ensures 0 < h.blocks[b].kind.ptr
  {
    hide Inv, H;
    PayloadBehind(p, h, b);
  }

  /** Checks after an update see the updated function. */
  lemma SameAfter(r: Regions, s: int, e: int, mark: Mark, r': Regions, s': int, e': int, mark': Mark)
    requires Marks(r, s, e, mark, r') && 0 <= s
    ensures AllMarked(MarksOf(r'), s', e', mark') <==> AllMarked(Marked(MarksOf(r), s, e, mark), s', e', mark')
  {
    hide At;
    assert forall a :: MarksOf(r')(a) == Marked(MarksOf(r), s, e, mark)(a);
  }

  lemma SameTwice(h: Heap, r: Regions, s: int, e: int, mark: Mark, r': Regions, s': int, e': int, mark': Mark)
    requires Marks(r, s, e, mark, r') && 0 <= s
    requires Agrees(h, Marked(Marked(MarksOf(r), s, e, mark), s', e', mark'))
    ensures Agrees(h, Marked(MarksOf(r'), s', e', mark'))
  {
    hide At, Live, Allocated, Pooled;
    forall a
      ensures AgreesAt(h, Marked(MarksOf(r'), s', e', mark'), a)
    {
      assert MarksOf(r')(a) == Marked(MarksOf(r), s, e, mark)(a);
      assert AgreesAt(h, Marked(Marked(MarksOf(r), s, e, mark), s', e', mark'), a);
    }
  }

  lemma InsertedNonNegative(p: Params, h: Heap, start: int, len: int)
    ensures 0 <= InsertedLength(p, start, len)
  {
    hide RoundUp, RoundDown, G, InsertPtr, InsertedLength, ChunkedLength, Aligned;
    InsertCases(p, h, start, len);
  }

  class CheckedTlsf {
    const tlsf: Tlsf
    const shadow: ShadowAllocator

    ghost predicate Valid()
      reads this, tlsf, tlsf.slBitmap, tlsf.firstFree, shadow
    {
      tlsf.Valid() && shadow.Valid() && Agrees(tlsf.h, MarksOf(shadow.regions))
    }

    /** What the two stand for. */
    ghost function Here(): State
      reads tlsf, shadow
    {
      State(tlsf.h, MarksOf(shadow.regions))
    }

    lemma IsGood()
      requires Valid()
      ensures Good(tlsf.p, Here()) && 0 in shadow.regions
    {
      hide Agrees, Inv;
    }

    constructor (params: Params, memory: Memory)
      ensures Valid() && fresh(tlsf) && fresh(tlsf.slBitmap) && fresh(tlsf.firstFree) && fresh(shadow)
      ensures tlsf.p == params
    {
      tlsf := new Tlsf(params, memory);
      shadow := new ShadowAllocator();
      new;
      NewAgrees(params, shadow.regions);
    }

    /** Allocate, and have the reference check that the range is aligned and free. */
    method Allocate(layout: Layout) returns (ptr: int, accepted: bool)
      requires Valid() && LayoutOk(tlsf.p, layout)
      modifies tlsf, tlsf.slBitmap, tlsf.firstFree, shadow
      ensures Valid() && accepted
      ensures ptr != 0 <==> Operations.Allocate(tlsf.p, old(tlsf.h), layout).Done?
    {
      hide Tlsf.Valid, Inv, Agrees, Canonical, Marks, AllAre, AllMarked, Marked, At, Operations.Allocate, Pow2, Live;
      IsGood();
      ghost var s := Here();
      AllocGoes(tlsf.p, s, layout);
      ptr := tlsf.Allocate(layout);
      accepted := true;
      if ptr != 0 {
        SameMarks(shadow.regions, ptr, ptr + layout.size, Shadow.Free);
        ghost var r := shadow.regions;
        accepted := shadow.Allocate(layout.size, Pow2(layout.alignLog), ptr);
        UpdateStands(tlsf.h, r, ptr, ptr + layout.size, Shadow.Used, shadow.regions);
      }
    }

    /** Deallocate, with or without the alignment, and have the reference check that the range is in use. */
    method Deallocate(ptr: int, layout: Layout, provideAlign: bool, ghost b: int) returns (accepted: bool)
      requires Valid() && IsUsed(tlsf.h.blocks, b) && tlsf.h.blocks[b].kind == Blocks.Used(ptr, layout)
      modifies tlsf, tlsf.slBitmap, tlsf.firstFree, shadow
      ensures Valid() && accepted
    {
      hide Tlsf.Valid, Inv, Agrees, Canonical, Marks, AllAre, AllMarked, Marked, At, Operations.Deallocate, Pow2, Live;
      IsGood();
      ghost var s := Here();
      DeallocGoes(tlsf.p, s, b);
      LiveAddress(tlsf.p, s.heap, b);
      if provideAlign {
        tlsf.Deallocate(ptr, layout.alignLog, b);
      } else {
        tlsf.DeallocateUnknownAlign(ptr, b);
      }
      ghost var r := shadow.regions;
      SameMarks(r, ptr, ptr + layout.size, Shadow.Used);
      accepted := shadow.Deallocate(layout.size, Pow2(layout.alignLog), ptr);
      UpdateStands(tlsf.h, r, ptr, ptr + layout.size, Shadow.Free, shadow.regions);
    }

    /** Reallocate; on success the reference frees the old range and then takes the new one. */
    method Reallocate(ptr: int, layout: Layout, newLayout: Layout, ghost b: int) returns (q: int, accepted: bool)
      requires Valid() && IsUsed(tlsf.h.blocks, b) && tlsf.h.blocks[b].kind == Blocks.Used(ptr, layout)
      requires LayoutOk(tlsf.p, newLayout) && newLayout.alignLog == layout.alignLog
      modifies tlsf, tlsf.slBitmap, tlsf.firstFree, shadow
      ensures Valid() && accepted
      ensures q != 0 <==> Operations.Reallocate(tlsf.p, old(tlsf.h), b, newLayout).Done?
    {
      hide Tlsf.Valid, Inv, Agrees, Canonical, Marks, AllAre, AllMarked, Marked, At, Operations.Reallocate, Pow2, Live,
        MarksOf;
      IsGood();
      ghost var s := Here();
      ReallocGoes(tlsf.p, s, b, newLayout);
      LiveAddress(tlsf.p, s.heap, b);
      q := tlsf.Reallocate(ptr, newLayout, b);
      accepted := true;
      if q != 0 {
        ghost var r := shadow.regions;
        SameMarks(r, ptr, ptr + layout.size, Shadow.Used);
        var first := shadow.Deallocate(layout.size, Pow2(layout.alignLog), ptr);
        ghost var r1 := shadow.regions;
        EntryZero(r1);
        SameMarks(r1, q, q + newLayout.size, Shadow.Free);
        SameAfter(r, ptr, ptr + layout.size, Shadow.Free, r1, q, q + newLayout.size, Shadow.Free);
        var second := shadow.Allocate(newLayout.size, Pow2(newLayout.alignLog), q);
        SameTwice(tlsf.h, r, ptr, ptr + layout.size, Shadow.Free, r1, q, q + newLayout.size, Shadow.Used);
        UpdateStands(tlsf.h, r1, q, q + newLayout.size, Shadow.Used, shadow.regions);
        accepted := first && second;
      }
    }

    /** Insert memory; the reference takes as many bytes as the allocator says it used. */
    method Insert(start: int, len: int) returns (used: int, accepted: bool)
      requires Valid() && Permitted(tlsf.p, Here(), InsertPool(start, len))
      modifies tlsf, tlsf.slBitmap, tlsf.firstFree, shadow
      ensures Valid() && accepted && used == InsertedLength(tlsf.p, start, len)
    {
      hide Tlsf.Valid, Inv, Agrees, Canonical, Marks, AllAre, AllMarked, Marked, At, Live, InsertPtr, InsertedLength,
        Clear;
      IsGood();
      ghost var s := Here();
      InsertPoolGoes(tlsf.p, s, start, len);
      InsertedNonNegative(tlsf.p, tlsf.h, start, len);
      if 0 < len {
        InvalidIsClear(tlsf.p, s, start, start + len);
      }
      used := tlsf.InsertFreeBlockPtr(start, len);
      ghost var r := shadow.regions;
      SameMarks(r, start, start + used, Shadow.Invalid);
      accepted := shadow.InsertFreeBlock(start, used);
      UpdateStands(tlsf.h, r, start, start + used, Shadow.Free, shadow.regions);
    }

    /** Append memory to a pool; the reference takes as many bytes as the allocator says it used. */
    method Append(start: int, len: int) returns (used: int, accepted: bool)
      requires Valid() && Permitted(tlsf.p, Here(), AppendPool(start, len))
      modifies tlsf, tlsf.slBitmap, tlsf.firstFree, shadow
      ensures Valid() && accepted && used == AppendedLength(tlsf.p, len)
    {
      hide Tlsf.Valid, Inv, Agrees, Canonical, Marks, AllAre, AllMarked, Marked, At, Live, Operations.Append,
        AppendedLength, Clear, EndsPool, RoundDown, G, GoodRegion, Top;
      IsGood();
      ghost var s := Here();
      AppendPoolGoes(tlsf.p, s, start, len);
      BehindIsClear(tlsf.p, s, start, len);
      AppendPlan(tlsf.p, s.heap, start, len);
      RegionAligned(tlsf.p, s.heap, start, RoundDown(len, G(tlsf.p)));
      AppendedNonNegative(tlsf.p, len);
      used := tlsf.AppendFreeBlockPtr(start, len);
      ghost var r := shadow.regions;
      SameMarks(r, start, start + used, Shadow.Invalid);
      accepted := shadow.InsertFreeBlock(start, used);
      UpdateStands(tlsf.h, r, start, start + used, Shadow.Free, shadow.regions);
    }
  }
}
