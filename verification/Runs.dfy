/**
 Whole runs of the allocator next to a shadow that says of every address what it is used for. The shadow
 checks each step as the reference allocator does; no run ever fails a check.
 */
module Runs {
  import opened Arith
  import opened Config
  import opened SizeClass
  import opened Blocks
  import opened FreeLists
  import opened Heap
  import opened Operations
  import opened Properties
  import opened Represent
  import opened TlsfAllocator
  import S = Shadow

  // ----- the live allocations -----

  /** The live allocations: each used block with the pointer and the layout it was handed out with. */
  ghost function Live(bs: Tiling): map<int, Kind> {
    map b | b in bs && bs[b].kind.Used? :: bs[b].kind
  }

  /** The address belongs to the payload of an allocation. */
  ghost predicate Covers(k: Kind, a: int) {
    k.Used? && k.ptr <= a < k.ptr + k.layout.size
  }

  /** Recutting a range forgets the allocations in it and creates at most one at its start. */
  lemma ReshapeLive(p: Params, h: Heap, lo: int, mid: int, hi: int, kind: Kind, drop: seq<int>)
    requires lo in h.blocks && hi in h.blocks && lo < mid <= hi
    requires forall i :: 0 <= i < |drop| ==> drop[i] in h.blocks
    ensures var live := map b | b in Live(h.blocks) && !(lo <= b < hi) :: Live(h.blocks)[b];
            Live(Reshape(p, h, lo, mid, hi, kind, drop).blocks) == if kind.Used? then live[lo := kind] else live
    ensures Reshape(p, h, lo, mid, hi, kind, drop).pools == h.pools
  {
    hide UnlinkAll, Link;
  }

  /** Allocating adds one allocation, in a block that was free, and changes nothing else. */
  lemma AllocateLive(p: Params, h: Heap, layout: Layout) returns (b: int)
    requires Inv(p, h) && Allocate(p, h, layout).Done?
    ensures var r := Allocate(p, h, layout);
            && IsFree(h.blocks, b) && Inv(p, r.heap) && r.heap.pools == h.pools
            && Live(r.heap.blocks) == Live(h.blocks)[b := Used(r.ptr, layout)]
  {
    hide Inv, SearchSize, Choose, Granular, Reshape, CanReshape, PayloadStart, RoundUp, Live;
    AllocateOk(p, h, layout);
    BlockSizeSearch(p, layout);
    var s := SearchSize(p, layout).value;
    ChooseOk(p, h, s);
    b := Choose(p, h, s).value;
    AllocateAtOk(p, h, b, layout);
    var hi, ptr := b + h.blocks[b].size, PayloadStart(p, b, layout.alignLog);
    FreeAround(p, h, b);
    ReshapeLive(p, h, b, b + RoundUp(ptr - b + layout.size, G(p)), hi, Used(ptr, layout), [b]);
    OnlyLive(p, h, b, hi, b);
  }

  /** A range that holds no allocation but possibly `b`. */
  lemma OnlyLive(p: Params, h: Heap, lo: int, hi: int, b: int)
    requires forall x :: x in h.blocks && lo <= x < hi ==> x == b || !IsUsed(h.blocks, x)
    ensures (map x | x in Live(h.blocks) && !(lo <= x < hi) :: Live(h.blocks)[x]) ==
            if lo <= b < hi then Live(h.blocks) - {b} else Live(h.blocks)
  {
  }

  /** Deallocating removes one allocation and changes nothing else. */
  lemma DeallocateLive(p: Params, h: Heap, b: int)
    requires Inv(p, h) && IsUsed(h.blocks, b)
    ensures var h' := Deallocate(p, h, b);
            Inv(p, h') && h'.pools == h.pools && Live(h'.blocks) == Live(h.blocks) - {b}
  {
    hide Inv, Reshape, CanReshape, FreeEnd, Live;
    DeallocateOk(p, h, b);
    DeallocateReshapes(p, h, b);
    var hi := FreeEnd(p, h, b);
    var lo := if IsFree(h.blocks, h.blocks[b].prev) then h.blocks[b].prev else b;
    ReshapeLive(p, h, lo, hi, hi, Free, NextFree(h, b) + PrevFree(h, b));
    OnlyUsed(p, h, b, lo, hi);
    OnlyLive(p, h, lo, hi, b);
  }

  /** Between its free neighbours a used block is the only used one. */
  lemma OnlyUsed(p: Params, h: Heap, b: int, lo: int, hi: int)
    requires Inv(p, h) && IsUsed(h.blocks, b)
    requires hi == FreeEnd(p, h, b) || hi == b + h.blocks[b].size
    requires lo == b || (lo == h.blocks[b].prev && IsFree(h.blocks, lo))
    ensures lo <= b < hi
    ensures forall x :: x in h.blocks && lo <= x < hi ==> x == b || !IsUsed(h.blocks, x)
  {
    hide FreeEnd, ListsOk, Aligned, PayloadOk, G, H, PoolOk, PoolsApart;
    assert BlockOk(p, h.pools, h.blocks, b);
    assert BlockOk(p, h.pools, h.blocks, lo);
    assert BlockOk(p, h.pools, h.blocks, h.blocks[b].prev);
    forall x | x in h.blocks && lo <= x < hi
      ensures x == b || !IsUsed(h.blocks, x)
    {
      Neighbourhood(p, h, b, x);
    }
  }

  /** Resizing in place replaces one allocation and changes nothing else. */
  lemma InplaceLive(p: Params, h: Heap, b: int, layout: Layout) returns (c: int)
    requires Inv(p, h) && IsUsed(h.blocks, b) && layout.alignLog == h.blocks[b].kind.layout.alignLog
    requires ReallocateInplace(p, h, b, layout).Done?
    ensures var r := ReallocateInplace(p, h, b, layout);
            && (c == b || IsFree(h.blocks, c)) && Inv(p, r.heap) && r.heap.pools == h.pools
            && Live(r.heap.blocks) == (Live(h.blocks) - {b})[c := Used(r.ptr, layout)]
  {
    hide Inv, Reshape, CanReshape, FreeEnd, Live, MoveDown, BlockSize;
    ReallocateInplaceOk(p, h, b, layout);
    InplaceCases(p, h, b, layout);
    var k := h.blocks[b];
    var size := BlockSize(p, k.kind.ptr - b, layout.size).value;
    var n, hi := b + k.size, FreeEnd(p, h, b);
    ResizeReshapes(p, h, b, layout, size);
    c := b;
    if size == k.size {
      ReshapeLive(p, h, b, n, n, Used(k.kind.ptr, layout), []);
      OnlyUsed(p, h, b, b, n);
      OnlyLive(p, h, b, n, b);
    } else if size < k.size || (IsFree(h.blocks, n) && size - k.size <= h.blocks[n].size) {
      ReshapeLive(p, h, b, b + size, hi, Used(k.kind.ptr, layout), NextFree(h, b));
      OnlyUsed(p, h, b, b, hi);
      OnlyLive(p, h, b, hi, b);
    } else {
      c := k.prev;
      MoveLive(p, h, b, layout);
    }
  }

  lemma MoveLive(p: Params, h: Heap, b: int, layout: Layout)
    requires Inv(p, h) && IsUsed(h.blocks, b) && IsFree(h.blocks, h.blocks[b].prev)
    requires MoveDown(p, h, b, layout).Done?
    ensures var r := MoveDown(p, h, b, layout);
            && r.heap.pools == h.pools
            && Live(r.heap.blocks) == (Live(h.blocks) - {b})[h.blocks[b].prev := Used(r.ptr, layout)]
  {
    hide Inv, Reshape, CanReshape, FreeEnd, Live, BlockSize, PayloadStart;
    MoveReshapes(p, h, b, layout);
    var lo, hi := h.blocks[b].prev, FreeEnd(p, h, b);
    var ptr := PayloadStart(p, lo, layout.alignLog);
    var size := BlockSize(p, ptr - lo, layout.size).value;
    ReshapeLive(p, h, lo, lo + size, hi, Used(ptr, layout), [lo] + NextFree(h, b));
    OnlyUsed(p, h, b, lo, hi);
    OnlyLive(p, h, lo, hi, b);
  }

  /** Reallocating replaces one allocation and changes nothing else. */
  lemma ReallocateLive(p: Params, h: Heap, b: int, layout: Layout) returns (c: int)
    requires Inv(p, h) && IsUsed(h.blocks, b) && layout.alignLog == h.blocks[b].kind.layout.alignLog
    requires Reallocate(p, h, b, layout).Done?
    ensures var r := Reallocate(p, h, b, layout);
            && (c == b || IsFree(h.blocks, c)) && Inv(p, r.heap) && r.heap.pools == h.pools
            && Live(r.heap.blocks) == (Live(h.blocks) - {b})[c := Used(r.ptr, layout)]
  {
    hide Inv, ReallocateInplace, Allocate, Deallocate;
    if ReallocateInplace(p, h, b, layout).Done? {
      c := InplaceLive(p, h, b, layout);
    } else {
      c := AllocateLive(p, h, layout);
      AllocateKeepsUsed(p, h, layout, b);
      DeallocateLive(p, Allocate(p, h, layout).heap, b);
      assert Live(h.blocks)[c := Used(Allocate(p, h, layout).ptr, layout)] - {b} ==
             (Live(h.blocks) - {b})[c := Used(Allocate(p, h, layout).ptr, layout)];
    }
  }

  /** New pools leave every block there is alone. */
  lemma InsertKeepsBlocks(p: Params, h: Heap, start: int, size: int)
    requires Inv(p, h) && GoodRegion(p, h, start, size)
    ensures var bs := InsertAligned(p, h, start, size).blocks;
            forall b :: b in h.blocks ==> b in bs && bs[b] == h.blocks[b]
  {
    hide ListsOk, Aligned, G, BlockOk, ChunkBlocks;
    forall b | b in ChunkBlocks(p, start, size)
      ensures b !in h.blocks
    {
      ChunkBlocksWithin(p, start, size, b);
      OldBlock(p, h, start, size, b);
    }
  }

  /** New pools bring no allocation and touch none. */
  lemma InsertLive(p: Params, h: Heap, start: int, size: int)
    requires Inv(p, h) && GoodRegion(p, h, start, size)
    ensures Live(InsertAligned(p, h, start, size).blocks) == Live(h.blocks)
  {
    hide Inv, GoodRegion, ChunkBlocks, ChunkPools, ChunkLists, Live;
    InsertKeepsBlocks(p, h, start, size);
    var bs := InsertAligned(p, h, start, size).blocks;
    forall b
      ensures b in Live(bs) <==> b in Live(h.blocks)
      ensures b in Live(bs) ==> Live(bs)[b] == Live(h.blocks)[b]
    {
      LiveIsUsed(bs, b);
      LiveIsUsed(h.blocks, b);
      if b in ChunkBlocks(p, start, size) {
        ChunkKinds(p, start, size, b);
      }
    }
  }

  /** The new pools lie in the bytes that are counted as used. */
  lemma {:induction false} ChunkPoolsCounted(p: Params, start: int, size: int, s: int)
    requires s in ChunkPools(p, start, size)
    ensures start <= s && ChunkPools(p, start, size)[s] <= start + ChunkedLength(p, size)
    decreases size
  {
    hide G;
    var c := Chunk(p, size);
    if s != start {
      ChunkPoolsCounted(p, start + c, size - c, s);
    } else {
      ChunkedNonNegative(p, size - c);
    }
  }

  lemma {:induction false} ChunkedNonNegative(p: Params, size: int)
    ensures 0 <= ChunkedLength(p, size)
    decreases size
  {
    hide G;
    GPositive(p);
    var c := Chunk(p, size);
    if !(size < 2 * G(p) || c < 2 * G(p)) {
      ChunkedNonNegative(p, size - c);
    }
  }

  /** Extending a pool touches no allocation. */
  lemma ExtendLive(p: Params, h: Heap, start: int, len: int)
    requires Inv(p, h) && EndsPool(p, h, start) && GoodRegion(p, h, start, len) && 0 < len
    ensures Live(Extend(p, h, start, len).blocks) == Live(h.blocks)
  {
    hide Aligned, PayloadOk, Link, Unlink, ListsOk, G, H, MaxPoolSize, PoolOk, PoolsApart;
    var cap := start - G(p);
    var pen := h.blocks[cap].prev;
    var lo := if IsFree(h.blocks, pen) then pen else cap;
    var last := start + len - G(p);
    assert BlockOk(p, h.pools, h.blocks, cap);
    assert BlockOk(p, h.pools, h.blocks, pen);
    ExtendAligned(p, start, len, lo);
    OldBlock(p, h, start, len, last);
    forall x | x in h.blocks && lo <= x < start
      ensures x == lo || x == cap
    {
      assert Apart(h.blocks, lo, x) && Apart(h.blocks, cap, x);
    }
  }

  // ----- the shadow -----

  /** What each address is used for. */
  type Marking = int -> S.Mark

  ghost function Marked(m: Marking, s: int, e: int, mark: S.Mark): Marking {
    a => if s <= a < e then mark else m(a)
  }

  ghost predicate AllMarked(m: Marking, s: int, e: int, mark: S.Mark) {
    forall a :: s <= a < e ==> m(a) == mark
  }

  ghost predicate Pooled(pools: Pools, a: int) {
    exists s :: s in pools && s <= a < pools[s]
  }

  /** Some live payload has the address. */
  ghost predicate Allocated(live: map<int, Kind>, a: int) {
    exists b :: b in live && Covers(live[b], a)
  }

  ghost predicate AgreesAt(h: Heap, m: Marking, a: int) {
    && (m(a).Used? <==> Allocated(Live(h.blocks), a))
    && (Pooled(h.pools, a) ==> !m(a).Invalid?)
  }

  /** The addresses marked as used are exactly those of the live payloads, and the pools are known. */
  ghost predicate Agrees(h: Heap, m: Marking) {
    forall a {:trigger AgreesAt(h, m, a)} :: AgreesAt(h, m, a)
  }

  /** A payload lies in its pool, behind its header. */
  lemma PayloadPooled(p: Params, h: Heap, b: int, a: int)
    requires Inv(p, h) && b in Live(h.blocks) && Covers(Live(h.blocks)[b], a)
    ensures Pooled(h.pools, a) && b in h.blocks && b + H(p) <= a < b + h.blocks[b].size
  {
    hide ListsOk, Aligned, G, H, Pow2;
    assert BlockOk(p, h.pools, h.blocks, b);
    var s := h.blocks[b].pool;
    assert s in h.pools && s <= a < h.pools[s];
  }

  /** Live payloads do not overlap. */
  lemma PayloadsApart(p: Params, h: Heap, b: int, c: int, a: int)
    requires Inv(p, h) && b in Live(h.blocks) && c in Live(h.blocks)
    requires Covers(Live(h.blocks)[b], a) && Covers(Live(h.blocks)[c], a)
    ensures b == c
  {
    hide ListsOk, Aligned, G, H, Pow2;
    PayloadPooled(p, h, b, a);
    PayloadPooled(p, h, c, a);
    assert BlockOk(p, h.pools, h.blocks, b);
    assert BlockOk(p, h.pools, h.blocks, c);
    assert Apart(h.blocks, b, c) && Apart(h.blocks, c, b);
  }

  /** An allocation added to the live ones was free before. */
  lemma AddedWasFree(p: Params, h: Heap, h': Heap, m: Marking, b: int, k: Kind)
    requires Inv(p, h') && Agrees(h, m) && h'.pools == h.pools
    requires k.Used? && b !in Live(h.blocks) && Live(h'.blocks) == Live(h.blocks)[b := k]
    ensures k.ptr % Pow2(k.layout.alignLog) == 0
    ensures AllMarked(m, k.ptr, k.ptr + k.layout.size, S.Free)
    ensures Agrees(h', Marked(m, k.ptr, k.ptr + k.layout.size, S.Used))
  {
    hide Inv, Live, Pow2;
    BlockAligned(p, h', b);
    var live, live' := Live(h.blocks), Live(h'.blocks);
    forall a | k.ptr <= a < k.ptr + k.layout.size
      ensures m(a) == S.Free
    {
      assert AgreesAt(h, m, a);
      PayloadPooled(p, h', b, a);
      forall c | c in live && Covers(live[c], a)
        ensures false
      {
        assert live'[c] == live[c];
        PayloadsApart(p, h', b, c, a);
      }
    }
    var m' := Marked(m, k.ptr, k.ptr + k.layout.size, S.Used);
    forall a
      ensures AgreesAt(h', m', a)
    {
      assert AgreesAt(h, m, a);
      if k.ptr <= a < k.ptr + k.layout.size {
        assert Covers(live'[b], a);
      } else {
        OtherCover(live, b, k, a);
      }
    }
  }

  lemma OtherCover(live: map<int, Kind>, b: int, k: Kind, a: int)
    requires b !in live && !Covers(k, a)
    ensures Allocated(live[b := k], a) <==> Allocated(live, a)
  {
    if Allocated(live, a) {
      var c :| c in live && Covers(live[c], a);
      assert Covers(live[b := k][c], a);
    }
  }

  lemma BlockAligned(p: Params, h: Heap, b: int)
    requires Inv(p, h) && b in Live(h.blocks)
    ensures var k := Live(h.blocks)[b];
            k.Used? && k.ptr % Pow2(k.layout.alignLog) == 0 && IsUsed(h.blocks, b) && h.blocks[b].kind == k
  {
    assert BlockOk(p, h.pools, h.blocks, b);
  }

  /** An allocation taken from the live ones was used. */
  lemma RemovedWasUsed(p: Params, h: Heap, h': Heap, m: Marking, b: int)
    requires Inv(p, h) && Agrees(h, m) && h'.pools == h.pools
    requires b in Live(h.blocks) && Live(h'.blocks) == Live(h.blocks) - {b}
    ensures var k := Live(h.blocks)[b];
            && k.Used? && k.ptr % Pow2(k.layout.alignLog) == 0
            && AllMarked(m, k.ptr, k.ptr + k.layout.size, S.Used)
            && Agrees(h', Marked(m, k.ptr, k.ptr + k.layout.size, S.Free))
  {
    hide Inv, Live, Pow2;
    BlockAligned(p, h, b);
    var live, live' := Live(h.blocks), Live(h'.blocks);
    var k := live[b];
    forall a | k.ptr <= a < k.ptr + k.layout.size
      ensures m(a) == S.Used && !Allocated(live', a)
    {
      assert AgreesAt(h, m, a);
      assert Covers(live[b], a);
      forall c | c in live' && Covers(live'[c], a)
        ensures false
      {
        PayloadsApart(p, h, b, c, a);
      }
    }
    var m' := Marked(m, k.ptr, k.ptr + k.layout.size, S.Free);
    forall a
      ensures AgreesAt(h', m', a)
    {
      assert AgreesAt(h, m, a);
      if !(k.ptr <= a < k.ptr + k.layout.size) && Allocated(live, a) {
        var c :| c in live && Covers(live[c], a);
        assert c in live' && Covers(live'[c], a);
      }
    }
  }

  /** New pools in memory that was invalid. */
  lemma InsertedWasInvalid(h: Heap, h': Heap, m: Marking, s: int, e: int)
    requires Agrees(h, m) && AllMarked(m, s, e, S.Invalid) && Live(h'.blocks) == Live(h.blocks)
    requires forall a :: Pooled(h'.pools, a) ==> Pooled(h.pools, a) || s <= a < e
    ensures Agrees(h', Marked(m, s, e, S.Free))
  {
    hide Live, Allocated, Pooled;
    var m' := Marked(m, s, e, S.Free);
    forall a
      ensures AgreesAt(h', m', a)
    {
      assert AgreesAt(h, m, a);
    }
  }

  // ----- runs -----

  datatype State = State(heap: Heap, marks: Marking)

  /** Blocks name allocations, because a live pointer determines its block. */
  datatype Event =
    | InsertPool(start: int, len: int)
    | AppendPool(start: int, len: int)
    | Alloc(layout: Layout)
    | Dealloc(b: int)
    | Realloc(b: int, layout: Layout)

  /** `Misuse` is an event that the caller must not cause, `Broken` a failed check or a broken invariant. */
  datatype Verdict = Misuse | Broken | Ran(state: State)

  ghost function Initial(p: Params): State {
    State(Heap(map[], map[], EmptyLists(p)), a => S.Invalid)
  }

  /** What the interface demands of its callers: memory that is not in use yet, live allocations, the same alignment. */
  ghost predicate Permitted(p: Params, s: State, e: Event) {
    match e
    case InsertPool(start, len) =>
      0 < start < Top(p) && 0 <= len && start + len <= Top(p) && AllMarked(s.marks, start, start + len, S.Invalid)
    case AppendPool(start, len) =>
      && EndsPool(p, s.heap, start) && 0 <= len < Top(p) && start + len <= Top(p)
      && AllMarked(s.marks, start, start + len, S.Invalid)
    case Alloc(layout) => LayoutOk(p, layout)
    case Dealloc(b) => IsUsed(s.heap.blocks, b)
    case Realloc(b, layout) =>
      IsUsed(s.heap.blocks, b) && LayoutOk(p, layout) && s.heap.blocks[b].kind.layout.alignLog == layout.alignLog
  }

  /** Change the marks of a range that has the expected mark throughout. */
  ghost function Convert(m: Marking, s: int, e: int, from: S.Mark, to: S.Mark): Option<Marking> {
    if AllMarked(m, s, e, from) then Some(Marked(m, s, e, to)) else None
  }

  /** The shadow's checks of a new allocation. */
  ghost function Use(m: Marking, ptr: int, layout: Layout): Option<Marking> {
    if ptr % Pow2(layout.alignLog) == 0 then Convert(m, ptr, ptr + layout.size, S.Free, S.Used) else None
  }

  /** The shadow's checks of a deallocation. */
  ghost function Release(m: Marking, ptr: int, layout: Layout): Option<Marking> {
    if ptr % Pow2(layout.alignLog) == 0 then Convert(m, ptr, ptr + layout.size, S.Used, S.Free) else None
  }

  ghost function Accept(h: Heap, m: Option<Marking>): Verdict {
    match m
    case None => Broken
    case Some(m') => Ran(State(h, m'))
  }

  ghost function Step(p: Params, s: State, e: Event): Verdict {
    if !Inv(p, s.heap) then Broken
    else if !Permitted(p, s, e) then Misuse
    else
      match e
      case InsertPool(start, len) =>
        Accept(InsertPtr(p, s.heap, start, len),
               Convert(s.marks, start, start + InsertedLength(p, start, len), S.Invalid, S.Free))
      case AppendPool(start, len) =>
        Accept(Append(p, s.heap, start, len),
               Convert(s.marks, start, start + AppendedLength(p, len), S.Invalid, S.Free))
      case Alloc(layout) => (
        match Allocate(p, s.heap, layout)
        case Fail => Ran(s)
        case Done(h', ptr) => Accept(h', Use(s.marks, ptr, layout)))
      case Dealloc(b) =>
        var k := s.heap.blocks[b].kind;
        Accept(Deallocate(p, s.heap, b), Release(s.marks, k.ptr, k.layout))
      case Realloc(b, layout) => (
        var k := s.heap.blocks[b].kind;
        match Reallocate(p, s.heap, b, layout)
        case Fail => Ran(s)
        case Done(h', ptr) =>
          match Release(s.marks, k.ptr, k.layout)
          case None => Broken
          case Some(m) => Accept(h', Use(m, ptr, layout)))
  }

  /** Run the events one after the other. */
  ghost function Run(p: Params, s: State, es: seq<Event>): Verdict
    decreases |es|
  {
    hide Step, Inv;
    if es == [] then (if Inv(p, s.heap) then Ran(s) else Broken)
    else
      match Step(p, s, es[0])
      case Misuse => Misuse
      case Broken => Broken
      case Ran(t) => Run(p, t, es[1..])
  }

  /** Pools stay where they are and never shrink. */
  ghost predicate PoolsGrow(h: Heap, h': Heap) {
    forall s :: s in h.pools ==> s in h'.pools && h.pools[s] <= h'.pools[s]
  }

  ghost predicate Good(p: Params, s: State) {
    Inv(p, s.heap) && Agrees(s.heap, s.marks)
  }

  /** The step runs, to a good state. */
  ghost predicate Goes(p: Params, s: State, v: Verdict) {
    v.Ran? && Good(p, v.state) && PoolsGrow(s.heap, v.state.heap)
  }

  lemma AllocGoes(p: Params, s: State, layout: Layout)
    requires Good(p, s) && LayoutOk(p, layout)
    ensures Goes(p, s, Step(p, s, Alloc(layout))) && Step(p, s, Alloc(layout)).state.heap.pools == s.heap.pools
  {
    hide Inv, Agrees, Live, Allocate, AllMarked, Marked;
    if Allocate(p, s.heap, layout).Done? {
      var r := Allocate(p, s.heap, layout);
      var b := AllocateLive(p, s.heap, layout);
      LiveIsUsed(s.heap.blocks, b);
      AddedWasFree(p, s.heap, r.heap, s.marks, b, Used(r.ptr, layout));
    }
  }

  lemma LiveIsUsed(bs: Tiling, b: int)
    ensures b in Live(bs) <==> IsUsed(bs, b)
    ensures b in Live(bs) ==> Live(bs)[b] == bs[b].kind
  {
  }

  lemma DeallocGoes(p: Params, s: State, b: int)
    requires Good(p, s) && IsUsed(s.heap.blocks, b)
    ensures Goes(p, s, Step(p, s, Dealloc(b))) && Step(p, s, Dealloc(b)).state.heap.pools == s.heap.pools
  {
    hide Inv, Agrees, Live, Deallocate, AllMarked, Marked;
    DeallocateLive(p, s.heap, b);
    LiveIsUsed(s.heap.blocks, b);
    RemovedWasUsed(p, s.heap, Deallocate(p, s.heap, b), s.marks, b);
  }

  lemma ReallocGoes(p: Params, s: State, b: int, layout: Layout)
    requires Good(p, s) && Permitted(p, s, Realloc(b, layout))
    ensures Goes(p, s, Step(p, s, Realloc(b, layout)))
    ensures Step(p, s, Realloc(b, layout)).state.heap.pools == s.heap.pools
  {
    hide Inv, Agrees, Live, Deallocate, Reallocate, AllMarked, Marked, Allocated;
    if Reallocate(p, s.heap, b, layout).Done? {
      var r := Reallocate(p, s.heap, b, layout);
      var h1 := Deallocate(p, s.heap, b);
      var k := s.heap.blocks[b].kind;
      DeallocateLive(p, s.heap, b);
      LiveIsUsed(s.heap.blocks, b);
      RemovedWasUsed(p, s.heap, h1, s.marks, b);
      var c := ReallocateLive(p, s.heap, b, layout);
      LiveIsUsed(s.heap.blocks, c);
      var m := Marked(s.marks, k.ptr, k.ptr + k.layout.size, S.Free);
      AddedWasFree(p, h1, r.heap, m, c, Used(r.ptr, layout));
    }
  }

  /** Memory that is not in use yet is apart from every pool. */
  lemma InvalidIsClear(p: Params, s: State, start: int, end: int)
    requires Good(p, s) && AllMarked(s.marks, start, end, S.Invalid) && start < end
    ensures Clear(s.heap.pools, start, end)
  {
    hide ListsOk, BlockOk, Apart, Live;
    forall t | t in s.heap.pools
      ensures s.heap.pools[t] <= start || end <= t
    {
      assert PoolOk(p, s.heap.pools, s.heap.blocks, t);
      var a := if t <= start then start else t;
      assert AgreesAt(s.heap, s.marks, a);
    }
  }

  /** The pools that a region is cut into are in the part that is counted. */
  lemma InsertedPools(p: Params, h: Heap, start: int, size: int, a: int)
    requires Pooled(InsertAligned(p, h, start, size).pools, a)
    ensures Pooled(h.pools, a) || start <= a < start + ChunkedLength(p, size)
  {
    hide ChunkPools, ChunkBlocks, ChunkLists, ChunkedLength;
    var pools := InsertAligned(p, h, start, size).pools;
    var s :| s in pools && s <= a < pools[s];
    if s in ChunkPools(p, start, size) {
      ChunkPoolsCounted(p, start, size, s);
    }
  }

  /** Cutting pools out of unused memory. */
  lemma InsertGoes(p: Params, s: State, start: int, size: int, from: int)
    requires Good(p, s) && GoodRegion(p, s.heap, start, size) && from <= start
    requires AllMarked(s.marks, from, start + ChunkedLength(p, size), S.Invalid)
    ensures var s' := State(InsertAligned(p, s.heap, start, size),
                            Marked(s.marks, from, start + ChunkedLength(p, size), S.Free));
            Good(p, s') && PoolsGrow(s.heap, s'.heap)
  {
    hide Inv, Agrees, Live, AllMarked, Marked, Pooled, ChunkPools, ChunkBlocks, ChunkLists, ChunkedLength;
    InsertOk(p, s.heap, start, size);
    InsertLive(p, s.heap, start, size);
    var h' := InsertAligned(p, s.heap, start, size);
    forall a | Pooled(h'.pools, a)
      ensures Pooled(s.heap.pools, a) || from <= a < start + ChunkedLength(p, size)
    {
      InsertedPools(p, s.heap, start, size, a);
    }
    InsertedWasInvalid(s.heap, h', s.marks, from, start + ChunkedLength(p, size));
    InsertKeepsPools(p, s.heap, start, size);
  }

  lemma InsertKeepsPools(p: Params, h: Heap, start: int, size: int)
    requires Inv(p, h) && GoodRegion(p, h, start, size)
    ensures PoolsGrow(h, InsertAligned(p, h, start, size))
    ensures forall t :: t in h.pools ==> InsertAligned(p, h, start, size).pools[t] == h.pools[t]
  {
    hide ListsOk, BlockOk, Apart, ChunkPools, ChunkBlocks, ChunkLists, G, Aligned;
    forall t | t in h.pools
      ensures t !in ChunkPools(p, start, size)
    {
      assert PoolOk(p, h.pools, h.blocks, t);
      if t in ChunkPools(p, start, size) {
        ChunkPoolsWithin(p, start, size, t);
        ChunkPoolsStart(p, start, size, t);
      }
    }
  }

  lemma {:induction false} ChunkPoolsStart(p: Params, start: int, size: int, s: int)
    requires s in ChunkPools(p, start, size)
    ensures s < start + size
    decreases size
  {
    var c := Chunk(p, size);
    if s != start {
      ChunkPoolsStart(p, start + c, size - c, s);
    }
  }

  lemma SomeLess(m: Marking, s: int, e: int, e': int, mark: S.Mark)
    requires AllMarked(m, s, e, mark) && e' <= e
    ensures AllMarked(m, s, e', mark)
  {
  }

  lemma NothingMarked(h: Heap, m: Marking, s: int, mark: S.Mark)
    requires Agrees(h, m)
    ensures Agrees(h, Marked(m, s, s, mark))
  {
    hide Live, Allocated, Pooled;
    forall a
      ensures AgreesAt(h, Marked(m, s, s, mark), a)
    {
      assert AgreesAt(h, m, a);
    }
  }

  lemma InsertPoolGoes(p: Params, s: State, start: int, len: int)
    requires Good(p, s) && Permitted(p, s, InsertPool(start, len))
    ensures Goes(p, s, Step(p, s, InsertPool(start, len)))
  {
    hide Inv, Agrees, AllMarked, Marked, InsertPtr, InsertedLength, InsertAligned, ChunkedLength, RoundUp, RoundDown,
      Aligned, G, Top, Clear;
    InsertCases(p, s.heap, start, len);
    GPositive(p);
    var pad := RoundUp(start, G(p)) - start;
    var n := RoundDown(len - pad, G(p));
    var r := InsertedLength(p, start, len);
    if len - pad < 2 * G(p) {
      NothingMarked(s.heap, s.marks, start, S.Free);
      SomeLess(s.marks, start, start + len, start, S.Invalid);
    } else {
      SomeLess(s.marks, start, start + len, start + r, S.Invalid);
      InvalidIsClear(p, s, start, start + len);
      ClearPart(s.heap.pools, start, start + len, start + pad, start + pad + n);
      InsertGoes(p, s, start + pad, n, start);
    }
  }

  /** Memory behind a pool is apart from every pool, even when there is none of it. */
  lemma BehindIsClear(p: Params, s: State, start: int, len: int)
    requires Good(p, s) && Permitted(p, s, AppendPool(start, len))
    ensures Clear(s.heap.pools, start, start + len)
  {
    hide ListsOk, Apart, Live, AllMarked, PayloadOk, Aligned, G, Top;
    if 0 < len {
      InvalidIsClear(p, s, start, start + len);
    } else {
      var cap := start - G(p);
      assert BlockOk(p, s.heap.pools, s.heap.blocks, cap);
      var q := s.heap.blocks[cap].pool;
      forall t | t in s.heap.pools
        ensures s.heap.pools[t] <= start || start + len <= t
      {
        assert PoolsApart(s.heap.pools, t, q) && PoolsApart(s.heap.pools, q, t);
      }
    }
  }

  lemma AppendPoolGoes(p: Params, s: State, start: int, len: int)
    requires Good(p, s) && Permitted(p, s, AppendPool(start, len))
    ensures Goes(p, s, Step(p, s, AppendPool(start, len)))
  {
    hide Inv, Agrees, AllMarked, Marked, InsertAligned, ChunkedLength, RoundDown, Aligned, G, Top, Clear, EndsPool,
      Extend, GoodRegion, MaxPoolSize;
    BehindIsClear(p, s, start, len);
    AppendPlan(p, s.heap, start, len);
    var n := RoundDown(len, G(p));
    if MaxPoolSize(p).Some? {
      RegionAligned(p, s.heap, start, n);
      ChunkedLengthIs(p, n);
      GPositive(p);
      SomeLess(s.marks, start, start + len, start + ChunkedLength(p, n), S.Invalid);
      InsertGoes(p, s, start, n, start);
    } else {
      SomeLess(s.marks, start, start + len, start + n, S.Invalid);
      if n == 0 {
        NothingMarked(s.heap, s.marks, start, S.Free);
      } else {
        ExtendGoes(p, s, start, n);
      }
    }
  }

  lemma ExtendGoes(p: Params, s: State, start: int, n: int)
    requires Good(p, s) && EndsPool(p, s.heap, start) && GoodRegion(p, s.heap, start, n) && 0 < n
    requires MaxPoolSize(p).None? && AllMarked(s.marks, start, start + n, S.Invalid)
    ensures start - G(p) in s.heap.blocks
    ensures var s' := State(Extend(p, s.heap, start, n), Marked(s.marks, start, start + n, S.Free));
            Good(p, s') && PoolsGrow(s.heap, s'.heap)
  {
    hide Agrees, Live, AllMarked, Marked, ListsOk, Apart, PayloadOk, Aligned, Link, Unlink, G;
    ExtendOk(p, s.heap, start, n);
    ExtendLive(p, s.heap, start, n);
    var h, h' := s.heap, Extend(p, s.heap, start, n);
    assert BlockOk(p, h.pools, h.blocks, start - G(p));
    var q := h.blocks[start - G(p)].pool;
    forall a | Pooled(h'.pools, a)
      ensures Pooled(h.pools, a) || start <= a < start + n
    {
      var t :| t in h'.pools && t <= a < h'.pools[t];
      if t != q || a < start {
        assert t in h.pools && t <= a < h.pools[t];
      }
    }
    InsertedWasInvalid(h, h', s.marks, start, start + n);
  }

  /** Every permitted step of a good state passes the shadow's checks and leads to a good state. */
  lemma StepGoes(p: Params, s: State, e: Event)
    requires Good(p, s) && Permitted(p, s, e)
    ensures Goes(p, s, Step(p, s, e))
    ensures e.Alloc? || e.Dealloc? || e.Realloc? ==> Step(p, s, e).state.heap.pools == s.heap.pools
  {
    hide Good, Goes, Step, EndsPool, AllMarked;
    match e
    case InsertPool(start, len) => InsertPoolGoes(p, s, start, len);
    case AppendPool(start, len) => AppendPoolGoes(p, s, start, len);
    case Alloc(layout) => AllocGoes(p, s, layout);
    case Dealloc(b) => DeallocGoes(p, s, b);
    case Realloc(b, layout) => ReallocGoes(p, s, b, layout);
  }

  lemma InitialGood(p: Params)
    ensures Good(p, Initial(p))
  {
    var s := Initial(p);
    assert FreeBlocks(s.heap.blocks) == map[];
    forall a
      ensures AgreesAt(s.heap, s.marks, a)
    {
    }
  }

  /** A run from a good state never breaks, and where it goes through it ends in a good state. */
  lemma {:induction false} RunGoes(p: Params, s: State, es: seq<Event>)
    requires Good(p, s)
    ensures !Run(p, s, es).Broken?
    ensures Run(p, s, es).Ran? ==> Goes(p, s, Run(p, s, es))
    ensures Run(p, s, es).Ran? && (forall i :: 0 <= i < |es| ==> !es[i].InsertPool? && !es[i].AppendPool?) ==>
              Run(p, s, es).state.heap.pools == s.heap.pools
    decreases |es|
  {
    hide Inv, Agrees, Permitted;
    if es != [] {
      StepNotBroken(p, s, es[0]);
      if Permitted(p, s, es[0]) {
        StepGoes(p, s, es[0]);
        RunGoes(p, Step(p, s, es[0]).state, es[1..]);
      }
    }
  }

  lemma StepNotBroken(p: Params, s: State, e: Event)
    requires Good(p, s)
    ensures !Permitted(p, s, e) ==> Step(p, s, e).Misuse?
  {
  }

  /**
   From the new allocator on, no sequence of permitted calls breaks the invariant or fails a check of the
   shadow, and the addresses in use are exactly those of the live payloads.
   */
  lemma RunsAreSafe(p: Params, es: seq<Event>)
    ensures !Run(p, Initial(p), es).Broken?
    ensures Run(p, Initial(p), es).Ran? ==> Good(p, Run(p, Initial(p), es).state)
  {
    hide Good, Run;
    InitialGood(p);
    RunGoes(p, Initial(p), es);
  }

  /** The address is behind the header of `b` and in no other block, be it free, used or a sentinel. */
  ghost predicate OnlyIn(p: Params, bs: Tiling, b: int, a: int) {
    b + H(p) <= a && forall x :: x in bs && x != b ==> !(x <= a < x + bs[x].size)
  }

  lemma PayloadOnlyIn(p: Params, h: Heap, b: int, a: int)
    requires Inv(p, h) && b in Live(h.blocks) && Covers(Live(h.blocks)[b], a)
    ensures OnlyIn(p, h.blocks, b, a)
  {
    hide ListsOk, BlockOk, PoolOk, PoolsApart, Covers, H;
    PayloadPooled(p, h, b, a);
    forall x | x in h.blocks && x != b
      ensures !(x <= a < x + h.blocks[x].size)
    {
      assert Apart(h.blocks, b, x) && Apart(h.blocks, x, b);
    }
  }

  /**
   After any run, the payload of a live allocation is aligned, inside a pool, behind its own header, apart from
   every other block, and so from every other live payload.
   */
  lemma LivePayloadsAreSafe(p: Params, es: seq<Event>, b: int)
    requires Run(p, Initial(p), es).Ran?
    requires IsUsed(Run(p, Initial(p), es).state.heap.blocks, b)
    ensures var h := Run(p, Initial(p), es).state.heap;
            var k := h.blocks[b].kind;
            && k.ptr % Pow2(k.layout.alignLog) == 0
            && (forall a :: Covers(k, a) ==> Pooled(h.pools, a) && OnlyIn(p, h.blocks, b, a))
            && (forall c, a :: IsUsed(h.blocks, c) && c != b && Covers(k, a) ==> !Covers(h.blocks[c].kind, a))
  {
    hide Inv, Live, Run, Initial, Covers, Pooled, OnlyIn;
    RunsAreSafe(p, es);
    var h := Run(p, Initial(p), es).state.heap;
    LiveIsUsed(h.blocks, b);
    BlockAligned(p, h, b);
    var k := h.blocks[b].kind;
    forall a | Covers(k, a)
      ensures Pooled(h.pools, a) && OnlyIn(p, h.blocks, b, a)
    {
      PayloadPooled(p, h, b, a);
      PayloadOnlyIn(p, h, b, a);
    }
    forall c, a | IsUsed(h.blocks, c) && c != b && Covers(k, a)
      ensures !Covers(h.blocks[c].kind, a)
    {
      LiveIsUsed(h.blocks, c);
      if Covers(h.blocks[c].kind, a) {
        PayloadsApart(p, h, b, c, a);
      }
    }
  }

  /** Allocating, deallocating and reallocating conserve the bytes of every pool. */
  lemma RunsConserve(p: Params, es: seq<Event>, fs: seq<Event>, t: int)
    requires Run(p, Initial(p), es).Ran?
    requires Run(p, Run(p, Initial(p), es).state, fs).Ran?
    requires forall i :: 0 <= i < |fs| ==> !fs[i].InsertPool? && !fs[i].AppendPool?
    requires t in Run(p, Initial(p), es).state.heap.pools
    ensures var h := Run(p, Initial(p), es).state.heap;
            var h' := Run(p, Run(p, Initial(p), es).state, fs).state.heap;
            && Inv(p, h) && Inv(p, h') && t in h.blocks && t in h'.blocks
            && TotalSize(h'.blocks, Walk(p, h', t)) == TotalSize(h.blocks, Walk(p, h, t)) == h.pools[t] - t
  {
    hide Inv, Agrees, Run, Initial, Walk, TotalSize, PoolsGrow, Tiles;
    RunsAreSafe(p, es);
    var s := Run(p, Initial(p), es).state;
    RunGoes(p, s, fs);
    PoolTiled(p, s.heap, t);
    PoolTiled(p, Run(p, s, fs).state.heap, t);
  }

  lemma NoneUsed(bs: Tiling)
    requires Live(bs) == map[]
    ensures forall b :: !IsUsed(bs, b)
  {
    forall b
      ensures !IsUsed(bs, b)
    {
      assert b !in Live(bs);
    }
  }

  /** After any run that leaves no live allocation, every pool is one free block and its sentinel. */
  lemma RunsDrain(p: Params, es: seq<Event>, t: int)
    requires Run(p, Initial(p), es).Ran?
    requires var h := Run(p, Initial(p), es).state.heap;
             t in h.pools && Live(h.blocks) == map[]
    ensures var h := Run(p, Initial(p), es).state.heap;
            && IsFree(h.blocks, t) && h.blocks[t].size == h.pools[t] - t - G(p)
            && forall b :: b in h.blocks && h.blocks[b].pool == t <==> b == t || b == h.pools[t] - G(p)
  {
    hide Inv, Agrees, Run, Initial, Live, G;
    RunsAreSafe(p, es);
    var h := Run(p, Initial(p), es).state.heap;
    NoneUsed(h.blocks);
    Drained(p, h, t);
  }

  ghost function Deallocs(order: seq<int>): seq<Event> {
    seq(|order|, i requires 0 <= i < |order| => Dealloc(order[i]))
  }

  /** All live allocations can be freed, in any order, and then none is left. */
  lemma {:induction false} FreeAll(p: Params, s: State, order: seq<int>)
    requires Good(p, s) && NoDup(order)
    requires forall b :: b in order <==> b in Live(s.heap.blocks)
    ensures var v := Run(p, s, Deallocs(order));
            v.Ran? && Live(v.state.heap.blocks) == map[] && v.state.heap.pools == s.heap.pools
    decreases |order|
  {
    hide Inv, Agrees, Live, Step, Good;
    if order == [] {
      assert Deallocs(order) == [];
      forall b
        ensures b !in Live(s.heap.blocks)
      {
        assert b !in order;
      }
      GoodInv(p, s);
    } else {
      var b, rest := order[0], order[1..];
      assert b in order && order == [b] + rest;
      LiveIsUsed(s.heap.blocks, b);
      DeallocStep(p, s, b);
      var t := Step(p, s, Dealloc(b)).state;
      assert Deallocs(order)[0] == Dealloc(b) && Deallocs(order)[1..] == Deallocs(rest);
      FreeAll(p, t, rest);
    }
  }

  lemma GoodInv(p: Params, s: State)
    requires Good(p, s)
    ensures Inv(p, s.heap)
  {
  }

  lemma DeallocStep(p: Params, s: State, b: int)
    requires Good(p, s) && IsUsed(s.heap.blocks, b)
    ensures var v := Step(p, s, Dealloc(b));
            && v.Ran? && Good(p, v.state) && v.state.heap.pools == s.heap.pools
            && Live(v.state.heap.blocks) == Live(s.heap.blocks) - {b}
  {
    hide Inv, Agrees, Live, Deallocate, Release;
    DeallocGoes(p, s, b);
    DeallocateLive(p, s.heap, b);
  }
}
