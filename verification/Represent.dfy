/** How the bitmaps, the list heads, the links and the block headers represent the abstract heap. */
module Represent {
  import opened Arith
  import opened Bits
  import opened Config
  import opened SizeClass
  import opened Blocks
  import opened FreeLists
  import opened Heap
  import opened Operations
  import opened Memory

  // ----- bitmaps -----

  ghost predicate NonEmpty(lists: Lists, fl: nat, sl: nat) {
    Class(fl, sl) in lists && lists[Class(fl, sl)] != []
  }

  /** A second-level bit is set iff its list is non-empty, and its number is a list number. */
  ghost predicate SlOk(p: Params, lists: Lists, slBitmap: seq<nat>, fl: nat) {
    fl < |slBitmap| ==>
      && slBitmap[fl] < Pow2(p.slBits)
      && forall sl: nat {:trigger GetBit(slBitmap[fl], sl)} :: GetBit(slBitmap[fl], sl) <==> NonEmpty(lists, fl, sl)
  }

  /** A first-level bit is set iff the second-level bitmap has a one. */
  ghost predicate FlOk(p: Params, flBitmap: nat, slBitmap: seq<nat>) {
    && |slBitmap| == p.fllen
    && flBitmap < Pow2(p.flBits)
    && forall fl: nat {:trigger GetBit(flBitmap, fl)} :: GetBit(flBitmap, fl) <==> fl < p.fllen && slBitmap[fl] != 0
  }

  ghost predicate BitmapsOk(p: Params, lists: Lists, flBitmap: nat, slBitmap: seq<nat>) {
    && FlOk(p, flBitmap, slBitmap)
    && (forall fl: nat {:trigger SlOk(p, lists, slBitmap, fl)} :: SlOk(p, lists, slBitmap, fl))
    && (forall c {:trigger ValidClass(p, c)} :: c in lists <==> ValidClass(p, c))
  }

  /** The list to allocate from, found with three bit scans. */
  function Search(p: Params, flBitmap: nat, slBitmap: seq<nat>, minSize: nat): Option<Class>
    requires Granular(p, minSize) && |slBitmap| == p.fllen && flBitmap < Pow2(p.flBits)
    requires forall fl :: 0 <= fl < p.fllen ==> slBitmap[fl] < Pow2(p.slBits)
  {
    HasListCeil(p, minSize);
    match MapCeil(p, minSize)
    case None => None
    case Some(c) =>
      var sl := BitScanForward(slBitmap[c.fl], c.sl, p.slBits);
      if sl < Sllen(p) then Some(Class(c.fl, sl))
      else
        var fl := BitScanForward(flBitmap, c.fl + 1, p.flBits);
        if fl < p.fllen then
          var sl2 := TrailingZeros(slBitmap[fl], p.slBits);
          Some(Class(fl, sl2))
        else None
  }

  lemma HasListCeil(p: Params, size: nat)
    requires Granular(p, size)
    ensures MapCeil(p, size).Some? ==> ValidClass(p, MapCeil(p, size).value)
  {
    hide MapCeil, Ceil;
    MapCeilIs(p, size);
  }

  /** A non-zero second-level bitmap has its lowest one at the first non-empty list of that level. */
  lemma LowestOne(p: Params, lists: Lists, slBitmap: seq<nat>, fl: nat)
    requires SlOk(p, lists, slBitmap, fl) && fl < |slBitmap|
    requires forall c {:trigger ValidClass(p, c)} :: c in lists <==> ValidClass(p, c)
    ensures var sl := TrailingZeros(slBitmap[fl], p.slBits);
            && (slBitmap[fl] != 0 ==> sl < Sllen(p) && NonEmpty(lists, fl, sl))
            && (forall i: nat :: i < sl ==> !NonEmpty(lists, fl, i))
            && (slBitmap[fl] == 0 ==> forall i: nat :: !NonEmpty(lists, fl, i))
  {
    hide TrailingZeros, GetBit, Pow2;
    var x := slBitmap[fl];
    var sl := TrailingZeros(x, p.slBits);
    TrailingZerosFirst(x, p.slBits);
    forall i: nat | i < sl
      ensures !NonEmpty(lists, fl, i)
    {
      assert !GetBit(x, i);
    }
    if x != 0 {
      if sl == p.slBits {
        NoBitsIsZero(x, p.slBits);
      }
      assert ValidClass(p, Class(fl, sl));
    } else {
      forall i: nat
        ensures !NonEmpty(lists, fl, i)
      {
        ZeroBits(i);
      }
    }
  }

  /**
   The bitmap search refines the linear scan. In particular it never meets a set first-level bit over an
   empty second level, nor a set second-level bit over an empty list.
   */
  lemma SearchIs(p: Params, lists: Lists, flBitmap: nat, slBitmap: seq<nat>, minSize: nat)
    requires Granular(p, minSize) && BitmapsOk(p, lists, flBitmap, slBitmap)
    ensures flBitmap < Pow2(p.flBits)
    ensures forall fl :: 0 <= fl < p.fllen ==> slBitmap[fl] < Pow2(p.slBits)
    ensures Search(p, flBitmap, slBitmap, minSize) ==
            match MapCeil(p, minSize)
            case None => None
            case Some(c) => FirstFrom(p, lists, c)
  {
    hide MapCeil, FirstFrom, BitScanForward, TrailingZeros, Granular, GetBit, Pow2;
    forall fl | 0 <= fl < p.fllen
      ensures slBitmap[fl] < Pow2(p.slBits)
    {
      assert SlOk(p, lists, slBitmap, fl);
    }
    HasListCeil(p, minSize);
    match MapCeil(p, minSize)
    case None =>
    case Some(c) =>
      var x := slBitmap[c.fl];
      assert SlOk(p, lists, slBitmap, c.fl);
      BitScanForwardFirst(x, c.sl, p.slBits);
      var sl := BitScanForward(x, c.sl, p.slBits);
      if sl < Sllen(p) {
        forall i: nat | c.sl <= i < sl
          ensures !NonEmpty(lists, c.fl, i)
        {
          assert !GetBit(x, i);
        }
        FirstIs(p, lists, c, Class(c.fl, sl));
      } else {
        BitScanForwardFirst(flBitmap, c.fl + 1, p.flBits);
        var fl := BitScanForward(flBitmap, c.fl + 1, p.flBits);
        forall i: nat | c.sl <= i
          ensures !NonEmpty(lists, c.fl, i)
        {
          assert ValidClass(p, Class(c.fl, i)) <==> Class(c.fl, i) in lists;
          if i < Sllen(p) {
            assert !GetBit(x, i);
          }
        }
        forall f: nat, i: nat | c.fl < f < fl
          ensures !NonEmpty(lists, f, i)
        {
          assert ValidClass(p, Class(f, i)) <==> Class(f, i) in lists;
          if f < p.fllen {
            assert !GetBit(flBitmap, f);
            assert SlOk(p, lists, slBitmap, f);
            LowestOne(p, lists, slBitmap, f);
          }
        }
        if fl < p.fllen {
          assert GetBit(flBitmap, fl);
          assert SlOk(p, lists, slBitmap, fl);
          LowestOne(p, lists, slBitmap, fl);
          FirstIs(p, lists, c, Class(fl, TrailingZeros(slBitmap[fl], p.slBits)));
        } else {
          NoneFrom(p, lists, c);
        }
      }
  }

  /** A non-empty list with nothing but empty lists between it and `c` is the one the scan finds. */
  lemma FirstIs(p: Params, lists: Lists, c: Class, d: Class)
    requires Leq(c, d) && ValidClass(p, d) && NonEmpty(lists, d.fl, d.sl)
    requires forall e: Class :: Leq(c, e) && !Leq(d, e) ==> !NonEmpty(lists, e.fl, e.sl)
    ensures FirstFrom(p, lists, c) == Some(d)
  {
    FirstFromIs(p, lists, c, d);
    FirstFromFound(p, lists, c);
    var e := FirstFrom(p, lists, c).value;
    assert e == Class(e.fl, e.sl);
    LeqAntisymmetric(d, e);
  }

  lemma NoneFrom(p: Params, lists: Lists, c: Class)
    requires forall e: Class :: Leq(c, e) && ValidClass(p, e) ==> !NonEmpty(lists, e.fl, e.sl)
    ensures FirstFrom(p, lists, c).None?
  {
    if FirstFrom(p, lists, c).Some? {
      FirstFromFound(p, lists, c);
      assert false;
    }
  }

  // ----- the bitmaps follow the lists -----

  lemma BitsKept(p: Params, lists: Lists, flBitmap: nat, slBitmap: seq<nat>, c: Class, l: seq<int>)
    requires BitmapsOk(p, lists, flBitmap, slBitmap) && c in lists && (l == [] <==> lists[c] == [])
    ensures BitmapsOk(p, lists[c := l], flBitmap, slBitmap)
  {
    hide GetBit, Pow2;
    var lists' := lists[c := l];
    forall fl: nat
      ensures SlOk(p, lists', slBitmap, fl)
    {
      assert SlOk(p, lists, slBitmap, fl);
    }
    forall d
      ensures d in lists' <==> ValidClass(p, d)
    {
      assert d in lists <==> ValidClass(p, d);
    }
  }

  lemma SlAfter(p: Params, lists: Lists, slBitmap: seq<nat>, c: Class, l: seq<int>, x: nat, fl: nat)
    requires SlOk(p, lists, slBitmap, fl) && c in lists && c.fl < |slBitmap| && x < Pow2(p.slBits)
    requires forall sl: nat :: GetBit(x, sl) <==> (if sl == c.sl then l != [] else NonEmpty(lists, c.fl, sl))
    ensures SlOk(p, lists[c := l], slBitmap[c.fl := x], fl)
  {
    hide GetBit, Pow2;
    if fl == c.fl {
      forall sl: nat
        ensures GetBit(x, sl) <==> NonEmpty(lists[c := l], fl, sl)
      {
        assert Class(fl, sl) == c <==> sl == c.sl;
      }
    }
  }

  /** Setting both bits accounts for a list that gains a block. */
  lemma BitsSet(p: Params, lists: Lists, flBitmap: nat, slBitmap: seq<nat>, c: Class, l: seq<int>)
    requires BitmapsOk(p, lists, flBitmap, slBitmap) && c in lists && l != []
    ensures ValidClass(p, c)
    ensures BitmapsOk(p, lists[c := l], SetBit(flBitmap, c.fl, p.flBits),
                      slBitmap[c.fl := SetBit(slBitmap[c.fl], c.sl, p.slBits)])
  {
    hide GetBit, Pow2, SetBit;
    assert ValidClass(p, c);
    var lists' := lists[c := l];
    var flBitmap' := SetBit(flBitmap, c.fl, p.flBits);
    assert SlOk(p, lists, slBitmap, c.fl);
    var x := SetBit(slBitmap[c.fl], c.sl, p.slBits);
    var slBitmap' := slBitmap[c.fl := x];
    SetBitSets(slBitmap[c.fl], c.sl, p.slBits, c.sl);
    SetBitSets(flBitmap, c.fl, p.flBits, c.fl);
    if x == 0 {
      ZeroBits(c.sl);
    }
    forall sl: nat
      ensures GetBit(x, sl) <==> (if sl == c.sl then l != [] else NonEmpty(lists, c.fl, sl))
    {
      SetBitSets(slBitmap[c.fl], c.sl, p.slBits, sl);
    }
    forall fl: nat
      ensures SlOk(p, lists', slBitmap', fl)
    {
      assert SlOk(p, lists, slBitmap, fl);
      SlAfter(p, lists, slBitmap, c, l, x, fl);
    }
    forall fl: nat
      ensures GetBit(flBitmap', fl) <==> fl < p.fllen && slBitmap'[fl] != 0
    {
      SetBitSets(flBitmap, c.fl, p.flBits, fl);
    }
    forall d
      ensures d in lists' <==> ValidClass(p, d)
    {
      assert d in lists <==> ValidClass(p, d);
    }
  }

  /**
   Clearing the second-level bit, and the first-level bit when no other is left, accounts for a list that runs
   empty.
   */
  lemma BitsCleared(p: Params, lists: Lists, flBitmap: nat, slBitmap: seq<nat>, c: Class)
    requires BitmapsOk(p, lists, flBitmap, slBitmap) && c in lists
    ensures ValidClass(p, c) && slBitmap[c.fl] < Pow2(p.slBits) && flBitmap < Pow2(p.flBits)
    ensures var x := ClearBit(slBitmap[c.fl], c.sl, p.slBits);
            BitmapsOk(p, lists[c := []], if x == 0 then ClearBit(flBitmap, c.fl, p.flBits) else flBitmap,
                      slBitmap[c.fl := x])
  {
    hide GetBit, Pow2, ClearBit;
    assert ValidClass(p, c);
    var lists' := lists[c := []];
    assert SlOk(p, lists, slBitmap, c.fl);
    var x := ClearBit(slBitmap[c.fl], c.sl, p.slBits);
    var slBitmap' := slBitmap[c.fl := x];
    var flBitmap' := if x == 0 then ClearBit(flBitmap, c.fl, p.flBits) else flBitmap;
    ClearBitClears(slBitmap[c.fl], c.sl, p.slBits, c.sl);
    ClearBitClears(flBitmap, c.fl, p.flBits, c.fl);
    forall sl: nat
      ensures GetBit(x, sl) <==> (if sl == c.sl then false else NonEmpty(lists, c.fl, sl))
    {
      ClearBitClears(slBitmap[c.fl], c.sl, p.slBits, sl);
    }
    forall fl: nat
      ensures SlOk(p, lists', slBitmap', fl)
    {
      assert SlOk(p, lists, slBitmap, fl);
      SlAfter(p, lists, slBitmap, c, [], x, fl);
    }
    if x != 0 {
      ClearedNotAlone(p, slBitmap[c.fl], c.sl);
    }
    forall fl: nat
      ensures GetBit(flBitmap', fl) <==> fl < p.fllen && slBitmap'[fl] != 0
    {
      ClearBitClears(flBitmap, c.fl, p.flBits, fl);
    }
    forall d
      ensures d in lists' <==> ValidClass(p, d)
    {
      assert d in lists <==> ValidClass(p, d);
    }
  }

  lemma ClearedNotAlone(p: Params, x: nat, i: nat)
    requires x < Pow2(p.slBits) && i < p.slBits && ClearBit(x, i, p.slBits) != 0
    ensures x != 0
  {
  }

  // ----- links -----

  function Head(l: seq<int>): int {
    if l == [] then 0 else l[0]
  }

  function NextIn(l: seq<int>, i: nat): int
    requires i < |l|
  {
    if i + 1 < |l| then l[i + 1] else 0
  }

  function PrevIn(l: seq<int>, i: nat): int
    requires i < |l|
  {
    if i > 0 then l[i - 1] else 0
  }

  /** The `i`-th block of list `c` holds its neighbours in the list behind its header. */
  ghost predicate LinksAt(p: Params, lists: Lists, m: Memory, c: Class, i: int) {
    c in lists && 0 <= i < |lists[c]| ==>
      Load(m, lists[c][i] + H(p)) == Cell(NextIn(lists[c], i), PrevIn(lists[c], i))
  }

  ghost predicate LinksOk(p: Params, lists: Lists, m: Memory) {
    forall c, i {:trigger LinksAt(p, lists, m, c, i)} :: LinksAt(p, lists, m, c, i)
  }

  lemma ListMember(p: Params, lists: Lists, free: map<int, int>, c: Class, i: nat)
    requires ListsOk(p, lists, free) && c in lists && i < |lists[c]|
    ensures lists[c][i] in free && ListOf(p, free[lists[c][i]]) == Some(c) && 0 < lists[c][i]
  {
    hide ListOf;
    assert ListOk(p, lists, free, c);
    assert lists[c][i] in lists[c];
  }

  /** The links depend only on the cells behind the headers of the listed blocks. */
  lemma LinksKept(p: Params, lists: Lists, free: map<int, int>, m: Memory, m': Memory)
    requires ListsOk(p, lists, free) && LinksOk(p, lists, m)
    requires forall x :: x in free ==> Load(m', x + H(p)) == Load(m, x + H(p))
    ensures LinksOk(p, lists, m')
  {
    hide ListsOk, H;
    forall c, i
      ensures LinksAt(p, lists, m', c, i)
    {
      assert LinksAt(p, lists, m, c, i);
      if c in lists && 0 <= i < |lists[c]| {
        ListMember(p, lists, free, c, i);
      }
    }
  }

  /** The two writes that put a block at the front of its list. */
  function LinkWrites(p: Params, m: Memory, b: int, next: int): Memory {
    var m1 := Store(m, b + H(p), Cell(next, 0));
    if next != 0 then Store(m1, next + H(p), Cell(Load(m1, next + H(p)).w0, b)) else m1
  }

  lemma LinksAfterLink(p: Params, lists: Lists, free: map<int, int>, m: Memory, b: int, size: int)
    requires ListsOk(p, lists, free) && LinksOk(p, lists, m) && b !in free && ListOf(p, size).Some?
    requires ListOf(p, size).value in lists
    ensures LinksOk(p, Link(p, lists, b, size), LinkWrites(p, m, b, Head(lists[ListOf(p, size).value])))
  {
    hide ListOf, H;
    var c := ListOf(p, size).value;
    var l, lists' := lists[c], Link(p, lists, b, size);
    var next := Head(l);
    var m' := LinkWrites(p, m, b, next);
    assert ListOk(p, lists, free, c);
    forall d, i
      ensures LinksAt(p, lists', m', d, i)
    {
      if d in lists' && 0 <= i < |lists'[d]| {
        if d != c {
          ListMember(p, lists, free, d, i);
          if next != 0 {
            ListMember(p, lists, free, c, 0);
          }
          assert LinksAt(p, lists, m, d, i);
        } else if i > 0 {
          assert lists'[c] == [b] + l;
          ListMember(p, lists, free, c, i - 1);
          assert LinksAt(p, lists, m, c, i - 1);
        }
      }
    }
  }

  /** The writes that take a block out of its list. */
  function UnlinkWrites(p: Params, m: Memory, next: int, prev: int): Memory {
    var m1 := if next != 0 then Store(m, next + H(p), Cell(Load(m, next + H(p)).w0, prev)) else m;
    if prev != 0 then Store(m1, prev + H(p), Cell(next, Load(m1, prev + H(p)).w1)) else m1
  }

  lemma LinksAfterUnlink(p: Params, lists: Lists, free: map<int, int>, m: Memory, b: int, size: int, k: nat)
    requires ListsOk(p, lists, free) && LinksOk(p, lists, m) && ListOf(p, size).Some?
    requires ListOf(p, size).value in lists
    requires k < |lists[ListOf(p, size).value]| && lists[ListOf(p, size).value][k] == b
    ensures var l := lists[ListOf(p, size).value];
            && Load(m, b + H(p)) == Cell(NextIn(l, k), PrevIn(l, k))
            && LinksOk(p, Unlink(p, lists, b, size), UnlinkWrites(p, m, NextIn(l, k), PrevIn(l, k)))
  {
    hide ListOf, H, Without;
    var c := ListOf(p, size).value;
    var l, lists' := lists[c], Unlink(p, lists, b, size);
    var next, prev := NextIn(l, k), PrevIn(l, k);
    var m' := UnlinkWrites(p, m, next, prev);
    assert ListOk(p, lists, free, c);
    WithoutAt(l, k);
    assert LinksAt(p, lists, m, c, k);
    forall d, i
      ensures LinksAt(p, lists', m', d, i)
    {
      if d in lists' && 0 <= i < |lists'[d]| {
        if d != c {
          ListMember(p, lists, free, d, i);
          if k + 1 < |l| {
            ListMember(p, lists, free, c, k + 1);
          }
          if k > 0 {
            ListMember(p, lists, free, c, k - 1);
          }
          assert LinksAt(p, lists, m, d, i);
        } else {
          UnlinkedAt(p, lists, free, m, c, k, i);
        }
      }
    }
  }

  lemma UnlinkedAt(p: Params, lists: Lists, free: map<int, int>, m: Memory, c: Class, k: nat, i: nat)
    requires ListsOk(p, lists, free) && LinksOk(p, lists, m) && c in lists && k < |lists[c]| && i < |lists[c]| - 1
    ensures var l := lists[c];
            var l' := l[..k] + l[k + 1..];
            Load(UnlinkWrites(p, m, NextIn(l, k), PrevIn(l, k)), l'[i] + H(p)) == Cell(NextIn(l', i), PrevIn(l', i))
  {
    hide ListOf, H;
    var l := lists[c];
    assert ListOk(p, lists, free, c);
    var j := if i < k then i else i + 1;
    ListMember(p, lists, free, c, j);
    assert LinksAt(p, lists, m, c, j);
  }

  /** Where the neighbours of the `k`-th block of a list are, and what is left without it. */
  lemma UnlinkFacts(p: Params, lists: Lists, free: map<int, int>, c: Class, k: nat)
    requires ListsOk(p, lists, free) && c in lists && k < |lists[c]|
    ensures var l := lists[c];
            && (NextIn(l, k) != 0 <==> k + 1 < |l|) && (NextIn(l, k) != 0 ==> NextIn(l, k) in free)
            && (PrevIn(l, k) != 0 <==> 0 < k) && (PrevIn(l, k) != 0 ==> PrevIn(l, k) in free)
            && (Without(l, l[k]) == [] <==> |l| == 1)
            && Head(Without(l, l[k])) == (if k == 0 then NextIn(l, k) else Head(l))
            && ValidClass(p, c)
  {
    hide ListOf, Without;
    var l := lists[c];
    assert ListOk(p, lists, free, c);
    WithoutAt(l, k);
    if k + 1 < |l| {
      ListMember(p, lists, free, c, k + 1);
    }
    if 0 < k {
      ListMember(p, lists, free, c, k - 1);
    }
  }

  // ----- headers and pads -----

  /** The header cell of a block, and the pad that leads from a strongly aligned payload back to it. */
  ghost predicate HeaderOk(p: Params, bs: Tiling, m: Memory, b: int) {
    b in bs ==>
      var k := bs[b];
      && 0 <= k.size
      && Load(m, b) == Cell(SizeWord(k.kind, k.size), k.prev)
      && (k.kind.Used? && p.gl <= k.kind.layout.alignLog ==> Load(m, k.kind.ptr - H(p)).w1 == b)
  }

  ghost predicate HeadersOk(p: Params, bs: Tiling, m: Memory) {
    forall b {:trigger HeaderOk(p, bs, m, b)} :: HeaderOk(p, bs, m, b)
  }

  /**
   Addresses that recutting `[lo, hi)` leaves alone: neither there, nor the header at `hi`, nor the links of a free
   block.
   */
  ghost predicate Quiet(p: Params, bs: Tiling, lo: int, hi: int, a: int) {
    !(lo <= a <= hi) && !IsFree(bs, a - H(p))
  }

  ghost predicate Kept(p: Params, bs: Tiling, lo: int, hi: int, m: Memory, m': Memory) {
    forall a {:trigger Load(m', a)} :: Quiet(p, bs, lo, hi, a) ==> Load(m', a) == Load(m, a)
  }

  /** Headers, and the inside of used blocks, are quiet outside the recut range. */
  lemma QuietBlock(p: Params, pools: Pools, bs: Tiling, lo: int, hi: int, b: int, a: int)
    requires TilingOk(p, pools, bs) && lo in bs && hi in bs && lo < hi && b in bs
    requires b < lo || hi <= b
    ensures a == b && b != hi ==> Quiet(p, bs, lo, hi, a)
    ensures b < a < b + bs[b].size && bs[b].kind.Used? ==> Quiet(p, bs, lo, hi, a)
  {
    hide Aligned, PayloadOk, G, H;
    assert BlockOk(p, pools, bs, b);
    assert BlockOk(p, pools, bs, a - H(p));
    assert BlockOk(p, pools, bs, hi);
    assert Apart(bs, b, a - H(p)) && Apart(bs, a - H(p), b);
    assert Apart(bs, b, lo) && Apart(bs, hi, b);
  }

  /** The memory that represents a recut range. */
  ghost predicate RetileWrites(p: Params, bs: Tiling, lo: int, mid: int, hi: int, kind: Kind, m: Memory, m': Memory)
    requires lo in bs && hi in bs && lo < mid <= hi
  {
    && Load(m', lo) == Cell(SizeWord(kind, mid - lo), Load(m, lo).w1)
    && (mid < hi ==> Load(m', mid) == Cell(hi - mid, lo))
    && Load(m', hi) == Cell(Load(m, hi).w0, if mid < hi then mid else lo)
    && (kind.Used? && p.gl <= kind.layout.alignLog ==> Load(m', kind.ptr - H(p)).w1 == lo)
    && Kept(p, bs, lo, hi, m, m')
  }

  lemma HeadersAfterRetile(p: Params, pools: Pools, bs: Tiling, lo: int, mid: int, hi: int, kind: Kind, m: Memory,
                           m': Memory)
    requires TilingOk(p, pools, bs) && CanRetile(p, bs, lo, mid, hi, kind) && HeadersOk(p, bs, m)
    requires RetileWrites(p, bs, lo, mid, hi, kind, m, m')
    ensures HeadersOk(p, Retile(bs, lo, mid, hi, kind), m')
  {
    hide TilingOk, Or, G, H, Quiet, PayloadOk, Aligned;
    var bs' := Retile(bs, lo, mid, hi, kind);
    assert HeaderOk(p, bs, m, lo) && HeaderOk(p, bs, m, hi);
    forall b
      ensures HeaderOk(p, bs', m', b)
    {
      if b in bs' && b != lo && b != mid {
        assert HeaderOk(p, bs, m, b);
        QuietBlock(p, pools, bs, lo, hi, b, b);
        QuietPad(p, pools, bs, lo, hi, b);
      } else if b == hi && mid == hi {
        QuietPad(p, pools, bs, lo, hi, hi);
      }
    }
  }

  lemma QuietPad(p: Params, pools: Pools, bs: Tiling, lo: int, hi: int, b: int)
    requires TilingOk(p, pools, bs) && lo in bs && hi in bs && lo < hi && b in bs
    requires b < lo || hi <= b
    ensures bs[b].kind.Used? && p.gl <= bs[b].kind.layout.alignLog ==>
              Quiet(p, bs, lo, hi, bs[b].kind.ptr - H(p))
  {
    hide Quiet, G, H, Aligned, Apart;
    assert BlockOk(p, pools, bs, b);
    if bs[b].kind.Used? {
      QuietBlock(p, pools, bs, lo, hi, b, bs[b].kind.ptr - H(p));
    }
  }

  /** No header is where the links of a free block are. */
  lemma HeaderNotLink(p: Params, pools: Pools, bs: Tiling, a: int)
    requires TilingOk(p, pools, bs) && a in bs
    ensures !IsFree(bs, a - H(p))
  {
    hide Aligned, PayloadOk, G, H;
    assert BlockOk(p, pools, bs, a - H(p));
    assert Apart(bs, a - H(p), a);
  }

  // ----- what the world around a recut range can rely on -----

  /** The payload of `b` reads the same in both memories. */
  ghost predicate PayloadKept(bs: Tiling, m: Memory, m': Memory, b: int) {
    IsUsed(bs, b) ==> forall a :: bs[b].kind.ptr <= a < b + bs[b].size ==> Load(m', a) == Load(m, a)
  }

  /** Outside the pools, and in the second half of a sentinel, both memories agree. */
  ghost predicate OutsideKept(p: Params, pools: Pools, m: Memory, m': Memory) {
    forall a :: (forall s :: s in pools ==> !(s <= a < pools[s] - H(p))) ==> Load(m', a) == Load(m, a)
  }

  lemma NothingChanged(p: Params, pools: Pools, bs: Tiling, m: Memory)
    ensures forall b {:trigger PayloadKept(bs, m, m, b)} :: PayloadKept(bs, m, m, b)
    ensures OutsideKept(p, pools, m, m)
  {
  }

  lemma KeptPayload(p: Params, pools: Pools, bs: Tiling, lo: int, hi: int, m: Memory, m': Memory, b: int)
    requires TilingOk(p, pools, bs) && lo in bs && hi in bs && lo < hi && Kept(p, bs, lo, hi, m, m')
    requires !(lo <= b < hi)
    ensures PayloadKept(bs, m, m', b)
  {
    hide Quiet, TilingOk, G, H;
    if IsUsed(bs, b) {
      PayloadInside(p, pools, bs, b);
      forall a | bs[b].kind.ptr <= a < b + bs[b].size
        ensures Load(m', a) == Load(m, a)
      {
        QuietBlock(p, pools, bs, lo, hi, b, a);
      }
    }
  }

  lemma PayloadInside(p: Params, pools: Pools, bs: Tiling, b: int)
    requires TilingOk(p, pools, bs) && IsUsed(bs, b)
    ensures b + H(p) <= bs[b].kind.ptr <= b + bs[b].size && 0 < b
  {
    assert BlockOk(p, pools, bs, b);
  }

  lemma KeptOutside(p: Params, pools: Pools, bs: Tiling, lo: int, hi: int, m: Memory, m': Memory)
    requires TilingOk(p, pools, bs) && lo in bs && hi in bs && lo < hi && bs[lo].pool == bs[hi].pool
    requires Kept(p, bs, lo, hi, m, m')
    ensures OutsideKept(p, pools, m, m')
  {
    hide Aligned, PayloadOk, G, H, Apart, PoolOk, PoolsApart;
    assert BlockOk(p, pools, bs, lo) && BlockOk(p, pools, bs, hi);
    forall a | forall s :: s in pools ==> !(s <= a < pools[s] - H(p))
      ensures Load(m', a) == Load(m, a)
    {
      assert bs[lo].pool in pools;
      assert BlockOk(p, pools, bs, a - H(p));
      assert Quiet(p, bs, lo, hi, a);
    }
  }

  /** What can be read from the header of a block. */
  lemma ReadHeader(p: Params, pools: Pools, bs: Tiling, m: Memory, b: int)
    requires TilingOk(p, pools, bs) && HeadersOk(p, bs, m) && b in bs
    ensures var k, x := bs[b], Load(m, b).w0;
            && G(p) <= k.size && b + k.size <= Top(p) && 0 < b
            && x == k.size + (if k.kind.Free? then 0 else if k.kind.Used? then 1 else 3)
            && 0 <= x < Top(p) && SizeBits(p, x) == k.size
            && (UsedBit(x) <==> !k.kind.Free?) && (SentinelBit(x) <==> k.kind.Sentinel?)
            && Load(m, b).w1 == k.prev
            && Load(m, b) == Cell(SizeWord(k.kind, k.size), k.prev)
  {
    hide SizeWord, SizeBits, UsedBit, SentinelBit, H, PayloadOk;
    assert HeaderOk(p, bs, m, b);
    assert BlockOk(p, pools, bs, b);
    assert PoolOk(p, pools, bs, bs[b].pool);
    SizeWordIs(p, bs[b].kind, bs[b].size);
  }

  /** A recut range leaves the headers right, other payloads alone, and the outside alone. */
  lemma AfterReshape(p: Params, h: Heap, lo: int, mid: int, hi: int, kind: Kind, drop: seq<int>, m: Memory, m': Memory)
    requires Inv(p, h) && CanReshape(p, h, lo, mid, hi, kind, drop) && HeadersOk(p, h.blocks, m)
    requires RetileWrites(p, h.blocks, lo, mid, hi, kind, m, m')
    ensures HeadersOk(p, Retile(h.blocks, lo, mid, hi, kind), m')
    ensures OutsideKept(p, h.pools, m, m')
    ensures forall b {:trigger PayloadKept(h.blocks, m, m', b)} :: !(lo <= b < hi) ==> PayloadKept(h.blocks, m, m', b)
  {
    hide TilingOk, ListsOk, HeadersOk, Retile, Kept, OutsideKept, PayloadKept;
    HeadersAfterRetile(p, h.pools, h.blocks, lo, mid, hi, kind, m, m');
    KeptOutside(p, h.pools, h.blocks, lo, hi, m, m');
    forall b | !(lo <= b < hi)
      ensures PayloadKept(h.blocks, m, m', b)
    {
      KeptPayload(p, h.pools, h.blocks, lo, hi, m, m', b);
    }
  }

  // ----- which cells are written -----

  /** The cells that the allocator writes: headers, links of free blocks, pads. */
  ghost predicate IsCell(p: Params, bs: Tiling, a: int) {
    || a in bs
    || IsFree(bs, a - H(p))
    || exists b :: IsUsed(bs, b) && p.gl <= bs[b].kind.layout.alignLog && a == bs[b].kind.ptr - H(p)
  }

  /** From `m` to `m'` only cells of the blocks `bs` and `bs'` and the range `[s, e)` have changed. */
  ghost predicate OnlyCells(p: Params, bs: Tiling, bs': Tiling, s: int, e: int, m: Memory, m': Memory) {
    forall a {:trigger Load(m', a)} ::
      Load(m', a) != Load(m, a) ==> IsCell(p, bs, a) || IsCell(p, bs', a) || s <= a < e
  }

  /** Only the cells that make a used block `[lo, mid)` and a free rest, and the links of listed blocks, change. */
  ghost predicate Sparse(p: Params, lo: int, mid: int, hi: int, ptr: int, layout: Layout, free: map<int, int>,
                         m: Memory, m': Memory) {
    forall a {:trigger Load(m', a)} ::
      (&& a != lo && a != hi && (mid < hi ==> a != mid && a != mid + H(p))
       && (p.gl <= layout.alignLog ==> a != ptr - H(p)) && a - H(p) !in free) ==>
        Load(m', a) == Load(m, a)
  }

  /** Those cells belong to the blocks before or after a recut. */
  lemma SparseCells(p: Params, h: Heap, lo: int, mid: int, hi: int, ptr: int, layout: Layout, drop: seq<int>,
                    m: Memory, m': Memory)
    requires lo in h.blocks && hi in h.blocks && lo < mid <= hi
    requires Sparse(p, lo, mid, hi, ptr, layout, FreeBlocks(h.blocks) - (set x | x in drop), m, m')
    ensures OnlyCells(p, h.blocks, Retile(h.blocks, lo, mid, hi, Used(ptr, layout)), 0, 0, m, m')
  {
    hide H, Load;
    var bs' := Retile(h.blocks, lo, mid, hi, Used(ptr, layout));
    assert IsUsed(bs', lo) && bs'[lo].kind == Used(ptr, layout);
    assert mid < hi ==> IsFree(bs', mid);
    forall a | Load(m', a) != Load(m, a)
      ensures IsCell(p, h.blocks, a) || IsCell(p, bs', a)
    {
      if mid < hi && a == mid + H(p) {
        assert IsFree(bs', a - H(p));
      }
    }
  }

  /** Links of free blocks are cells. */
  lemma LinkCells(p: Params, bs: Tiling, bs': Tiling, m: Memory, m': Memory)
    requires forall a {:trigger Load(m', a)} :: !IsFree(bs, a - H(p)) ==> Load(m', a) == Load(m, a)
    ensures OnlyCells(p, bs, bs', 0, 0, m, m')
  {
    hide H, Load;
  }

  lemma CellsTwice(p: Params, bs: Tiling, bs': Tiling, s: int, e: int, m: Memory, m1: Memory, m2: Memory)
    requires OnlyCells(p, bs, bs', s, e, m, m1) && OnlyCells(p, bs, bs', 0, 0, m1, m2)
    ensures OnlyCells(p, bs, bs', s, e, m, m2)
  {
    hide IsCell, Load;
    forall a
      ensures Load(m2, a) != Load(m, a) ==> IsCell(p, bs, a) || IsCell(p, bs', a) || s <= a < e
    {
      assert Load(m1, a) == Load(m, a) || IsCell(p, bs, a) || IsCell(p, bs', a) || s <= a < e;
    }
  }

  /** What merging `[lo, hi)` into one free block writes. */
  lemma MergeCells(p: Params, bs: Tiling, lo: int, hi: int, m: Memory, m': Memory)
    requires lo in bs && hi in bs && lo < hi
    requires forall a {:trigger Load(m', a)} ::
               a != lo && a != hi && a != lo + H(p) && !IsFree(bs, a - H(p)) ==> Load(m', a) == Load(m, a)
    ensures OnlyCells(p, bs, Retile(bs, lo, hi, hi, Free), 0, 0, m, m')
  {
    hide H, Load;
    var bs' := Retile(bs, lo, hi, hi, Free);
    assert IsFree(bs', lo);
    forall a | Load(m', a) != Load(m, a)
      ensures IsCell(p, bs, a) || IsCell(p, bs', a)
    {
      if a == lo + H(p) {
        assert IsFree(bs', a - H(p));
      }
    }
  }

  /** What copying a payload after unlinking free blocks writes. */
  lemma MovedCells(p: Params, bs: Tiling, q: int, n: nat, m: Memory, m1: Memory, m2: Memory)
    requires OnlyCells(p, bs, bs, 0, 0, m, m1)
    requires forall a {:trigger Load(m2, a)} :: !(q <= a < q + n) ==> Load(m2, a) == Load(m1, a)
    ensures OnlyCells(p, bs, bs, q, q + n, m, m2)
  {
    hide IsCell, Load;
    forall a
      ensures Load(m2, a) != Load(m, a) ==> IsCell(p, bs, a) || q <= a < q + n
    {
      assert Load(m1, a) == Load(m, a) || IsCell(p, bs, a);
    }
  }

  lemma CellsAfterMove(p: Params, bs: Tiling, bs': Tiling, s: int, e: int, m: Memory, m1: Memory, m2: Memory)
    requires OnlyCells(p, bs, bs, s, e, m, m1) && OnlyCells(p, bs, bs', 0, 0, m1, m2)
    ensures OnlyCells(p, bs, bs', s, e, m, m2)
  {
    hide IsCell, Load;
    assert OnlyCells(p, bs, bs', s, e, m, m1);
    CellsTwice(p, bs, bs', s, e, m, m1, m2);
  }

  lemma ReshapeBlocks(p: Params, h: Heap, lo: int, mid: int, hi: int, kind: Kind, drop: seq<int>)
    requires lo in h.blocks && hi in h.blocks && lo < mid <= hi
    requires forall i :: 0 <= i < |drop| ==> drop[i] in h.blocks
    ensures Reshape(p, h, lo, mid, hi, kind, drop).blocks == Retile(h.blocks, lo, mid, hi, kind)
  {
    hide Retile, UnlinkAll, Link;
  }

  lemma NoCells(p: Params, bs: Tiling, bs': Tiling, s: int, e: int, m: Memory)
    ensures OnlyCells(p, bs, bs', s, e, m, m)
  {
  }

  lemma MoreCells(p: Params, bs: Tiling, bs': Tiling, s: int, e: int, m: Memory, m': Memory)
    requires OnlyCells(p, bs, bs', 0, 0, m, m')
    ensures OnlyCells(p, bs, bs', s, e, m, m')
  {
    hide IsCell, Load;
  }

  /** The headers and the pad that make a used block at the front of `[lo, hi)`. */
  ghost predicate Occupied(p: Params, lo: int, size: nat, hi: int, ptr: int, layout: Layout, m: Memory, m': Memory) {
    var mid := lo + size;
    && Load(m', lo) == Cell(SizeWord(Used(ptr, layout), size), Load(m, lo).w1)
    && (mid < hi ==> Load(m', mid) == Cell(hi - mid, lo))
    && Load(m', hi) == Cell(Load(m, hi).w0, if mid < hi then mid else lo)
    && (p.gl <= layout.alignLog ==> Load(m', ptr - H(p)).w1 == lo)
  }

  /** A sparse change leaves the inside of the used block alone, and whatever is quiet. */
  lemma SparseIsQuiet(p: Params, h: Heap, lo: int, mid: int, hi: int, ptr: int, layout: Layout, drop: seq<int>,
                      m: Memory, m': Memory)
    requires Sparse(p, lo, mid, hi, ptr, layout, FreeBlocks(h.blocks) - (set x | x in drop), m, m')
    requires 0 < lo && lo + G(p) <= mid && (mid == hi || mid + G(p) <= hi) && lo + H(p) <= ptr
    requires p.gl <= layout.alignLog ==> lo < ptr - H(p) < mid
    requires forall x :: x in FreeBlocks(h.blocks) && x !in drop ==> x + G(p) <= lo || hi <= x
    ensures forall a {:trigger Load(m', a)} :: Quiet(p, h.blocks, lo, hi, a) ==> Load(m', a) == Load(m, a)
    ensures forall a {:trigger Load(m', a)} :: ptr <= a < mid ==> Load(m', a) == Load(m, a)
  {
    hide G, H, Load;
  }

  /** After the free blocks of `[lo, hi)` are unlinked (`m` to `m1`) and its front is occupied (`m1` to `m2`). */
  lemma AfterOccupied(p: Params, h: Heap, lo: int, size: nat, hi: int, ptr: int, layout: Layout, drop: seq<int>,
                      m: Memory, m1: Memory, m2: Memory)
    requires Inv(p, h) && HeadersOk(p, h.blocks, m)
    requires CanReshape(p, h, lo, lo + size, hi, Used(ptr, layout), drop)
    requires Load(m1, lo).w1 == Load(m, lo).w1 && Load(m1, hi) == Load(m, hi) && Kept(p, h.blocks, lo, hi, m, m1)
    requires Occupied(p, lo, size, hi, ptr, layout, m1, m2)
    requires Sparse(p, lo, lo + size, hi, ptr, layout, FreeBlocks(h.blocks) - (set x | x in drop), m1, m2)
    ensures HeadersOk(p, Retile(h.blocks, lo, lo + size, hi, Used(ptr, layout)), m2)
    ensures OutsideKept(p, h.pools, m, m2)
    ensures forall b {:trigger PayloadKept(h.blocks, m, m2, b)} :: !(lo <= b < hi) ==> PayloadKept(h.blocks, m, m2, b)
    ensures forall a {:trigger Load(m2, a)} :: ptr <= a < lo + size ==> Load(m2, a) == Load(m1, a)
  {
    hide Inv, HeadersOk, Retile, OutsideKept, PayloadKept, G, H, Load, RetileWrites, Occupied, Kept, Pow2, PayloadOk,
      Aligned, Sparse;
    ReshapePlan(p, h, lo, lo + size, hi, Used(ptr, layout), drop);
    SparseIsQuiet(p, h, lo, lo + size, hi, ptr, layout, drop, m1, m2);
    OccupiedWrites(p, h, lo, size, hi, ptr, layout, drop, m, m1, m2);
    AfterReshape(p, h, lo, lo + size, hi, Used(ptr, layout), drop, m, m2);
  }

  lemma OccupiedWrites(p: Params, h: Heap, lo: int, size: nat, hi: int, ptr: int, layout: Layout, drop: seq<int>,
                       m: Memory, m1: Memory, m2: Memory)
    requires lo in h.blocks && hi in h.blocks && lo < lo + size <= hi
    requires Load(m1, lo).w1 == Load(m, lo).w1 && Load(m1, hi) == Load(m, hi) && Kept(p, h.blocks, lo, hi, m, m1)
    requires Occupied(p, lo, size, hi, ptr, layout, m1, m2)
    requires forall a {:trigger Load(m2, a)} :: Quiet(p, h.blocks, lo, hi, a) ==> Load(m2, a) == Load(m1, a)
    ensures RetileWrites(p, h.blocks, lo, lo + size, hi, Used(ptr, layout), m, m2)
  {
    hide SizeWord, G, H, Load;
  }

  /** There is no payload inside a free block. */
  lemma FreeHasNoPayload(p: Params, h: Heap, b: int, m: Memory, m': Memory)
    requires Inv(p, h) && IsFree(h.blocks, b)
    ensures forall x {:trigger PayloadKept(h.blocks, m, m', x)} ::
              b <= x < b + h.blocks[b].size ==> PayloadKept(h.blocks, m, m', x)
  {
    hide TilingOk, ListsOk;
    forall x | b <= x < b + h.blocks[b].size
      ensures PayloadKept(h.blocks, m, m', x)
    {
      if x in h.blocks {
        NothingBetween(p, h.pools, h.blocks, b, x);
      }
    }
  }

  /** The headers around a used block, as the words in memory show them. */
  lemma ReadAround(p: Params, h: Heap, m: Memory, b: int)
    requires Inv(p, h) && HeadersOk(p, h.blocks, m) && IsUsed(h.blocks, b)
    ensures var k, x := h.blocks[b], Load(m, b).w0;
            && 0 < b && G(p) <= k.size && b + k.size <= Top(p)
            && x == k.size + 1 && 0 <= x < Top(p) && SizeBits(p, x) == k.size && Load(m, b).w1 == k.prev
            && MaskDown(p, x, 1) == k.size && 1 <= p.w
    ensures var n := b + h.blocks[b].size;
            && n in h.blocks && !IsFree(h.blocks, n - H(p))
            && var y := Load(m, n).w0;
            && 0 <= y < Top(p) && SizeBits(p, y) == h.blocks[n].size && (UsedBit(y) <==> !IsFree(h.blocks, n))
            && (IsFree(h.blocks, n) ==> y == h.blocks[n].size)
            && FreeEnd(p, h, b) == (if IsFree(h.blocks, n) then n + h.blocks[n].size else n)
    ensures var q := h.blocks[b].prev;
            q != 0 ==>
              && q in h.blocks && q < b && !IsFree(h.blocks, q - H(p))
              && var z := Load(m, q).w0;
              && 0 <= z < Top(p) && (UsedBit(z) <==> !IsFree(h.blocks, q))
              && (IsFree(h.blocks, q) ==> z == h.blocks[q].size && q + z == b)
    ensures !IsFree(h.blocks, 0) && !IsFree(h.blocks, b - H(p)) && !IsFree(h.blocks, FreeEnd(p, h, b) - H(p))
  {
    hide TilingOk, ListsOk, HeadersOk, SizeBits, UsedBit, SentinelBit, SizeWord, G, H, Load, MaskDown;
    HasNext(p, h.pools, h.blocks, b);
    var n := b + h.blocks[b].size;
    ReadHeader(p, h.pools, h.blocks, m, b);
    ReadHeader(p, h.pools, h.blocks, m, n);
    UsedCleared(p, h, b);
    NotHalfway(p, h, n);
    NotHalfway(p, h, b);
    NotHalfway(p, h, FreeEnd(p, h, b));
    NoBlockAtNull(p, h);
    if h.blocks[b].prev != 0 {
      HasPrev(p, h.pools, h.blocks, b);
      ReadHeader(p, h.pools, h.blocks, m, h.blocks[b].prev);
      NotHalfway(p, h, h.blocks[b].prev);
    }
  }

  /** Clearing the used flag of a block's size word leaves its size. */
  lemma UsedCleared(p: Params, h: Heap, b: int)
    requires Inv(p, h) && IsUsed(h.blocks, b)
    ensures 0 <= h.blocks[b].size && h.blocks[b].size + 1 < Top(p) && 1 <= p.w
    ensures MaskDown(p, h.blocks[b].size + 1, 1) == h.blocks[b].size
  {
    hide ListsOk, MaskDown, RoundDown;
    var k := h.blocks[b];
    WidthExceeds(p);
    assert BlockOk(p, h.pools, h.blocks, b);
    assert BlockOk(p, h.pools, h.blocks, b + k.size);
    assert PoolOk(p, h.pools, h.blocks, k.pool);
    assert Pow2(1) == 2;
    MultipleOfSmaller(k.size, 1, p.gl);
    RoundDownDrops(k.size, 1, 2);
  }

  // ----- from a payload pointer back to the block -----

  /** The header of an allocation of known alignment. */
  function HeaderFor(p: Params, m: Memory, ptr: int, alignLog: nat): int {
    if p.gl <= alignLog then Load(m, ptr - H(p)).w1 else ptr - H(p)
  }

  /**
   The header of an allocation of unknown alignment: the word before the payload is either the pad or
   the `prev_phys_block` of the header right before the payload.
   */
  function HeaderForAny(p: Params, m: Memory, ptr: int): int {
    var candidate := Load(m, ptr - H(p)).w1;
    if candidate == 0 then ptr - H(p)
    else
      var blockEnd := candidate + Load(m, candidate).w0;
      if ptr > blockEnd then ptr - H(p) else candidate
  }

  /** Both lookups lead from every live payload pointer back to its block. */
  lemma HeaderLookup(p: Params, h: Heap, m: Memory, b: int)
    requires Inv(p, h) && HeadersOk(p, h.blocks, m) && IsUsed(h.blocks, b)
    ensures HeaderFor(p, m, h.blocks[b].kind.ptr, h.blocks[b].kind.layout.alignLog) == b
    ensures HeaderForAny(p, m, h.blocks[b].kind.ptr) == b
  {
    hide TilingOk, ListsOk, SizeWord, SizeBits, UsedBit, SentinelBit, Load, G, H, Aligned, Pow2;
    var k := h.blocks[b];
    ReadHeader(p, h.pools, h.blocks, m, b);
    PayloadShape(p, h, b);
    if p.gl <= k.kind.layout.alignLog {
      assert HeaderOk(p, h.blocks, m, b);
    } else if k.prev != 0 {
      HasPrev(p, h.pools, h.blocks, b);
      ReadHeader(p, h.pools, h.blocks, m, k.prev);
    }
  }

  lemma PayloadShape(p: Params, h: Heap, b: int)
    requires Inv(p, h) && IsUsed(h.blocks, b)
    ensures var k := h.blocks[b];
            && b + H(p) <= k.kind.ptr && k.kind.ptr + k.kind.layout.size <= b + k.size
            && (k.kind.layout.alignLog < p.gl ==> k.kind.ptr == b + H(p))
            && k.kind.ptr % Pow2(k.kind.layout.alignLog) == 0
  {
    assert BlockOk(p, h.pools, h.blocks, b);
  }

  /** A payload pointer belongs to one block only. */
  lemma OneBlockPerPointer(p: Params, h: Heap, b: int, c: int)
    requires Inv(p, h) && IsUsed(h.blocks, b) && IsUsed(h.blocks, c)
    requires h.blocks[b].kind.ptr == h.blocks[c].kind.ptr
    ensures b == c
  {
    hide ListsOk, Aligned, G, H;
    PayloadShape(p, h, b);
    PayloadShape(p, h, c);
    assert Apart(h.blocks, b, c) && Apart(h.blocks, c, b);
  }

  /** Between its free neighbours only the used block itself has a payload. */
  lemma NeighboursHaveNoPayload(p: Params, h: Heap, b: int, m: Memory, m': Memory)
    requires Inv(p, h) && IsUsed(h.blocks, b)
    ensures var lo := if IsFree(h.blocks, h.blocks[b].prev) then h.blocks[b].prev else b;
            forall x {:trigger PayloadKept(h.blocks, m, m', x)} ::
              lo <= x < FreeEnd(p, h, b) && x != b ==> PayloadKept(h.blocks, m, m', x)
  {
    hide Inv, FreeEnd;
    var lo := if IsFree(h.blocks, h.blocks[b].prev) then h.blocks[b].prev else b;
    forall x | lo <= x < FreeEnd(p, h, b) && x != b
      ensures PayloadKept(h.blocks, m, m', x)
    {
      Neighbourhood(p, h, b, x);
    }
  }

  // ----- contents of payloads -----

  /** The `n` bytes at `dst` are now what the `n` bytes at `src` were. */
  ghost predicate Copied(m: Memory, src: int, m': Memory, dst: int, n: int) {
    forall a {:trigger Load(m', a)} :: dst <= a < dst + n ==> Load(m', a) == Load(m, a - dst + src)
  }

  /** How many bytes of the payload of `b` survive a change to the given size. */
  ghost function Surviving(h: Heap, b: int, size: nat): int
    requires IsUsed(h.blocks, b)
  {
    var cap := b + h.blocks[b].size - h.blocks[b].kind.ptr;
    if size < cap then size else cap
  }

  /** The links of a free block are not inside a used block. */
  lemma PayloadNotLink(p: Params, h: Heap, b: int, a: int)
    requires Inv(p, h) && IsUsed(h.blocks, b) && b < a < b + h.blocks[b].size
    ensures !IsFree(h.blocks, a - H(p))
  {
    hide Aligned, PayloadOk, ListsOk, G, H;
    assert BlockOk(p, h.pools, h.blocks, b);
    assert BlockOk(p, h.pools, h.blocks, a - H(p));
    assert Apart(h.blocks, a - H(p), b) && Apart(h.blocks, b, a - H(p));
  }

  /** Keeping the size changes nothing in memory. */
  lemma AfterSameSize(p: Params, h: Heap, m: Memory, b: int, layout: Layout)
    requires Inv(p, h) && HeadersOk(p, h.blocks, m) && IsUsed(h.blocks, b)
    requires layout.alignLog == h.blocks[b].kind.layout.alignLog
    requires h.blocks[b].kind.ptr >= b
    requires BlockSize(p, h.blocks[b].kind.ptr - b, layout.size) == Some(h.blocks[b].size)
    ensures var n := b + h.blocks[b].size;
            && n in h.blocks && b < n
            && var h' := Reshape(p, h, b, n, n, Used(h.blocks[b].kind.ptr, layout), []);
            && Inv(p, h') && HeadersOk(p, h'.blocks, m) && h'.lists == h.lists
  {
    hide TilingOk, ListsOk, HeadersOk, BlockSize, SizeBits, UsedBit, SentinelBit, Retile, G, H, Load, CanReshape;
    var k := h.blocks[b];
    var n := b + k.size;
    HasNext(p, h.pools, h.blocks, b);
    ReadHeader(p, h.pools, h.blocks, m, b);
    ReadHeader(p, h.pools, h.blocks, m, n);
    ResizeReshapes(p, h, b, layout, k.size);
    ReshapeOk(p, h, b, n, n, Used(k.kind.ptr, layout), []);
    PadOf(p, h, m, b);
    assert RetileWrites(p, h.blocks, b, n, n, Used(k.kind.ptr, layout), m, m);
    AfterReshape(p, h, b, n, n, Used(k.kind.ptr, layout), [], m, m);
  }

  lemma PadOf(p: Params, h: Heap, m: Memory, b: int)
    requires HeadersOk(p, h.blocks, m) && IsUsed(h.blocks, b)
    ensures p.gl <= h.blocks[b].kind.layout.alignLog ==> Load(m, h.blocks[b].kind.ptr - H(p)).w1 == b
  {
    assert HeaderOk(p, h.blocks, m, b);
  }

  /** Copying a payload down inside a detached range touches neither the headers at its ends nor anything outside. */
  lemma MovedReady(p: Params, bs: Tiling, lo: int, mid: int, hi: int, m: Memory, m1: Memory, src: int, dst: int, n: nat)
    requires lo < dst && dst + n <= mid <= hi && Kept(p, bs, lo, hi, m, m1)
    ensures var m2 := Move(m1, src, dst, n);
            && Load(m2, lo) == Load(m1, lo) && Load(m2, hi) == Load(m1, hi) && Kept(p, bs, lo, hi, m, m2)
            && Copied(m1, src, m2, dst, n)
  {
    hide Load, Move;
  }

  lemma CopiedOn(m: Memory, src: int, m1: Memory, m2: Memory, dst: int, n: int)
    requires Copied(m, src, m1, dst, n)
    requires forall a {:trigger Load(m2, a)} :: dst <= a < dst + n ==> Load(m2, a) == Load(m1, a)
    ensures Copied(m, src, m2, dst, n)
  {
    hide Load;
  }

  /** Copying from a payload that has not changed since `m`. */
  lemma PayloadCopied(p: Params, h: Heap, b: int, m: Memory, m1: Memory, m2: Memory, dst: int, n: int)
    requires Inv(p, h) && IsUsed(h.blocks, b) && h.blocks[b].kind.ptr + n <= b + h.blocks[b].size
    requires Copied(m1, h.blocks[b].kind.ptr, m2, dst, n)
    requires forall a {:trigger Load(m1, a)} :: b < a < b + h.blocks[b].size ==> Load(m1, a) == Load(m, a)
    ensures Copied(m, h.blocks[b].kind.ptr, m2, dst, n)
  {
    hide Load, Inv;
    PayloadShape(p, h, b);
  }

  /** Writing into a payload disturbs no header, no pad and no link. */
  lemma PayloadWrite(p: Params, h: Heap, b: int, m: Memory, m': Memory)
    requires Inv(p, h) && HeadersOk(p, h.blocks, m) && LinksOk(p, h.lists, m) && IsUsed(h.blocks, b)
    requires forall a {:trigger Load(m', a)} ::
               !(h.blocks[b].kind.ptr <= a < b + h.blocks[b].size) ==> Load(m', a) == Load(m, a)
    ensures HeadersOk(p, h.blocks, m') && LinksOk(p, h.lists, m')
    ensures OutsideKept(p, h.pools, m, m')
    ensures forall x {:trigger PayloadKept(h.blocks, m, m', x)} :: x != b ==> PayloadKept(h.blocks, m, m', x)
  {
    hide ListsOk, LinksOk, Load, SizeWord, G, H, Aligned, Apart, Pow2, PayloadOk, OutsideKept;
    PayloadShape(p, h, b);
    forall x
      ensures HeaderOk(p, h.blocks, m', x)
    {
      assert HeaderOk(p, h.blocks, m, x);
      PayloadAway(p, h, b, x);
    }
    forall x | x in FreeBlocks(h.blocks)
      ensures Load(m', x + H(p)) == Load(m, x + H(p))
    {
      PayloadAway(p, h, b, x);
    }
    LinksKept(p, h.lists, FreeBlocks(h.blocks), m, m');
    PayloadInPool(p, h, b, m, m');
    forall x | x != b
      ensures PayloadKept(h.blocks, m, m', x)
    {
      PayloadAway(p, h, b, x);
    }
  }

  /** A write outside the pools, or into the unused half of a sentinel, disturbs nothing. */
  lemma UnusedWrite(p: Params, h: Heap, x: int, m: Memory, m': Memory)
    requires Inv(p, h) && HeadersOk(p, h.blocks, m) && LinksOk(p, h.lists, m)
    requires forall s :: s in h.pools ==> !(s <= x < h.pools[s] - H(p))
    requires forall a {:trigger Load(m', a)} :: a != x ==> Load(m', a) == Load(m, a)
    ensures HeadersOk(p, h.blocks, m') && LinksOk(p, h.lists, m')
    ensures forall b {:trigger PayloadKept(h.blocks, m, m', b)} :: PayloadKept(h.blocks, m, m', b)
  {
    hide ListsOk, LinksOk, Load, SizeWord, G, H, Aligned, Apart, Pow2, PoolOk, PoolsApart, PayloadOk, BlockOk;
    forall b
      ensures HeaderOk(p, h.blocks, m', b) && PayloadKept(h.blocks, m, m', b)
    {
      assert HeaderOk(p, h.blocks, m, b);
      if b in h.blocks {
        BlockInPool(p, h, b);
      }
    }
    forall b | b in FreeBlocks(h.blocks)
      ensures Load(m', b + H(p)) == Load(m, b + H(p))
    {
      BlockInPool(p, h, b);
    }
    LinksKept(p, h.lists, FreeBlocks(h.blocks), m, m');
  }

  /** The used part of a block ends before the unused half of the sentinel of its pool. */
  lemma BlockInPool(p: Params, h: Heap, b: int)
    requires Inv(p, h) && b in h.blocks
    ensures var k := h.blocks[b];
            && k.pool in h.pools && k.pool <= b && b + H(p) <= h.pools[k.pool] - H(p) && 0 < H(p)
            && (!k.kind.Sentinel? ==> b + k.size <= h.pools[k.pool] - G(p) && b + G(p) <= b + k.size)
            && (k.kind.Used? ==> b + H(p) <= k.kind.ptr <= b + k.size)
            && (k.kind.Used? && p.gl <= k.kind.layout.alignLog ==> b + G(p) <= k.kind.ptr)
  {
    hide ListsOk, Aligned, Apart, Pow2, PoolOk, PoolsApart, G, H;
    assert BlockOk(p, h.pools, h.blocks, b);
    assert BlockOk(p, h.pools, h.blocks, b + h.blocks[b].size);
  }

  /** The payload of `b` does not meet the header, the pad, the links or the payload of another block. */
  lemma PayloadAway(p: Params, h: Heap, b: int, x: int)
    requires Inv(p, h) && IsUsed(h.blocks, b)
    ensures x in h.blocks ==>
            var lo, hi := h.blocks[b].kind.ptr, b + h.blocks[b].size;
            && 0 < h.blocks[x].size
            && !(lo <= x < hi)
            && (x != b ==> x + h.blocks[x].size <= lo || hi <= x)
            && (IsFree(h.blocks, x) ==> !(lo <= x + H(p) < hi))
            && (IsUsed(h.blocks, x) ==>
                  && x + H(p) <= h.blocks[x].kind.ptr <= x + h.blocks[x].size
                  && (p.gl <= h.blocks[x].kind.layout.alignLog ==> !(lo <= h.blocks[x].kind.ptr - H(p) < hi)))
  {
    hide ListsOk, G, H, Aligned, Pow2;
    assert BlockOk(p, h.pools, h.blocks, b);
    assert BlockOk(p, h.pools, h.blocks, x);
    assert Apart(h.blocks, b, x) && Apart(h.blocks, x, b);
  }

  lemma PayloadInPool(p: Params, h: Heap, b: int, m: Memory, m': Memory)
    requires Inv(p, h) && IsUsed(h.blocks, b)
    requires forall a {:trigger Load(m', a)} ::
               !(h.blocks[b].kind.ptr <= a < b + h.blocks[b].size) ==> Load(m', a) == Load(m, a)
    ensures OutsideKept(p, h.pools, m, m')
  {
    hide ListsOk, G, H, Aligned, Pow2, Load, Apart, PoolOk, PoolsApart;
    assert BlockOk(p, h.pools, h.blocks, b);
    assert BlockOk(p, h.pools, h.blocks, b + h.blocks[b].size);
    assert h.blocks[b].pool in h.pools;
  }

  /** A payload that was copied into a fresh block while the old one stayed where it was. */
  lemma CopiedAcross(p: Params, h: Heap, b: int, m: Memory, h1: Heap, x: int, m1: Memory, m2: Memory, m3: Memory,
                     n: nat)
    requires IsUsed(h.blocks, b) && h.blocks[b].kind.ptr + n <= b + h.blocks[b].size && PayloadKept(h.blocks, m, m1, b)
    requires IsUsed(h1.blocks, x) && h1.blocks[x].kind.ptr + n <= x + h1.blocks[x].size
    requires m2 == Move(m1, h.blocks[b].kind.ptr, h1.blocks[x].kind.ptr, n)
    requires PayloadKept(h1.blocks, m2, m3, x)
    ensures Copied(m, h.blocks[b].kind.ptr, m3, h1.blocks[x].kind.ptr, n)
  {
    hide Load, Move;
  }

  lemma KeptTwice(bs: Tiling, bs1: Tiling, m: Memory, m1: Memory, m2: Memory, x: int)
    requires PayloadKept(bs, m, m1, x) && PayloadKept(bs1, m1, m2, x)
    requires IsUsed(bs, x) ==> x in bs1 && bs1[x].kind == bs[x].kind && bs1[x].size == bs[x].size
    ensures PayloadKept(bs, m, m2, x)
  {
    hide Load;
  }

  lemma OutsideTwice(p: Params, pools: Pools, m: Memory, m1: Memory, m2: Memory)
    requires OutsideKept(p, pools, m, m1) && OutsideKept(p, pools, m1, m2)
    ensures OutsideKept(p, pools, m, m2)
  {
    hide Load, H;
  }

  /** The block that an allocation creates, with room for the requested bytes. */
  lemma AllocatedAt(p: Params, h: Heap, layout: Layout) returns (x: int)
    requires Inv(p, h) && Allocate(p, h, layout).Done?
    ensures var r := Allocate(p, h, layout);
            && IsFree(h.blocks, x) && IsUsed(r.heap.blocks, x) && r.heap.blocks[x].kind == Used(r.ptr, layout)
            && r.ptr + layout.size <= x + r.heap.blocks[x].size && r.heap.pools == h.pools
  {
    hide Inv, Allocate;
    var r := Allocate(p, h, layout);
    AllocatedBlock(p, h, layout);
    x :| IsFree(h.blocks, x) && IsUsed(r.heap.blocks, x) && r.heap.blocks[x].kind == Used(r.ptr, layout);
    AllocateOk(p, h, layout);
    PayloadShape(p, r.heap, x);
    AllocatePools(p, h, layout);
  }

  lemma AllocatePools(p: Params, h: Heap, layout: Layout)
    requires Inv(p, h) && Allocate(p, h, layout).Done?
    ensures Allocate(p, h, layout).heap.pools == h.pools
  {
    hide Inv, SearchSize, Choose, PayloadStart, RoundUp, Retile, UnlinkAll, Link;
    BlockSizeSearch(p, layout);
  }

  /** Allocating, copying and freeing leaves every other payload alone. */
  lemma MovedAway(p: Params, h: Heap, layout: Layout, b: int, x: int, h1: Heap, m: Memory, m1: Memory, m2: Memory,
                  m3: Memory)
    requires Inv(p, h) && Allocate(p, h, layout).Done? && h1 == Allocate(p, h, layout).heap
    requires IsUsed(h.blocks, b) && IsFree(h.blocks, x) && h1.pools == h.pools
    requires forall y {:trigger PayloadKept(h.blocks, m, m1, y)} :: PayloadKept(h.blocks, m, m1, y)
    requires forall y {:trigger PayloadKept(h1.blocks, m1, m2, y)} :: y != x ==> PayloadKept(h1.blocks, m1, m2, y)
    requires forall y {:trigger PayloadKept(h1.blocks, m2, m3, y)} :: y != b ==> PayloadKept(h1.blocks, m2, m3, y)
    requires OutsideKept(p, h.pools, m, m1) && OutsideKept(p, h.pools, m1, m2) && OutsideKept(p, h.pools, m2, m3)
    ensures OutsideKept(p, h.pools, m, m3)
    ensures forall y {:trigger PayloadKept(h.blocks, m, m3, y)} :: y != b ==> PayloadKept(h.blocks, m, m3, y)
  {
    hide Inv, Allocate, PayloadKept, OutsideKept;
    OutsideTwice(p, h.pools, m, m1, m2);
    OutsideTwice(p, h.pools, m, m2, m3);
    forall y | y != b
      ensures PayloadKept(h.blocks, m, m3, y)
    {
      if IsUsed(h.blocks, y) {
        AllocateKeepsUsed(p, h, layout, y);
        KeptTwice(h.blocks, h1.blocks, m, m1, m2, y);
        KeptTwice(h.blocks, h1.blocks, m, m2, m3, y);
      } else {
        NoPayload(h.blocks, m, m3, y);
      }
    }
  }

  lemma NoPayload(bs: Tiling, m: Memory, m': Memory, x: int)
    requires !IsUsed(bs, x)
    ensures PayloadKept(bs, m, m', x)
  {
  }

  // ----- new pools -----

  /** The headers of `bs` are in memory. */
  ghost predicate HeaderCells(bs: Tiling, m: Memory) {
    forall b {:trigger Load(m, b)} ::
      b in bs ==> 0 <= bs[b].size && Load(m, b) == Cell(SizeWord(bs[b].kind, bs[b].size), bs[b].prev)
  }

  /** `done` are the blocks made so far: all below `cursor`, with no links on top of their headers. */
  ghost predicate Laid(p: Params, done: Tiling, start: int, cursor: int, free: map<int, int>) {
    && (forall b {:trigger b in done} :: b in done ==> start <= b && b + G(p) <= cursor)
    && (forall x {:trigger x in free} :: x in free ==> x + H(p) !in done)
  }

  /** The two blocks of a pool `[start, start + c)` added to `bs`. */
  function WithPool(p: Params, bs: Tiling, start: int, c: int): Tiling {
    bs[start := Block(c - G(p), Free, 0, start)][start + c - G(p) := Block(G(p), Sentinel, start, start)]
  }

  lemma LaidStep(p: Params, done: Tiling, start: int, cursor: int, c: int, free: map<int, int>)
    requires Laid(p, done, start, cursor, free) && start <= cursor && 2 * G(p) <= c
    requires forall x :: x in free ==> x + G(p) <= cursor || cursor + c <= x
    ensures Laid(p, WithPool(p, done, cursor, c), start, cursor + c, free[cursor := c - G(p)])
  {
    hide G, H;
  }

  lemma HeadersStep(p: Params, done: Tiling, start: int, cursor: int, c: int, free: map<int, int>, m: Memory,
                    m': Memory)
    requires Laid(p, done, start, cursor, free) && HeaderCells(done, m) && 2 * G(p) <= c
    requires Load(m', cursor) == Cell(c - G(p), 0)
    requires Load(m', cursor + c - G(p)) == Cell(SizeWord(Sentinel, G(p)), cursor)
    requires forall a {:trigger Load(m', a)} ::
               !(cursor <= a < cursor + c) && a - H(p) !in free ==> Load(m', a) == Load(m, a)
    ensures HeaderCells(WithPool(p, done, cursor, c), m')
  {
    hide G, H, Load, Or;
    forall b | b in done
      ensures 0 <= done[b].size && Load(m', b) == Cell(SizeWord(done[b].kind, done[b].size), done[b].prev)
    {
      assert b - H(p) !in free;
      assert Load(m', b) == Load(m, b);
    }
  }

  lemma ChunkStep(p: Params, lists: Lists, done: Tiling, start: int, cursor: int, left: int, free: map<int, int>)
    requires ChunksGranular(p, left) && 2 * G(p) <= left && Laid(p, done, start, cursor, free)
    ensures var c := Chunk(p, left);
            && 2 * G(p) <= c <= left && ChunksGranular(p, left - c)
            && WithPool(p, done, cursor, c) + ChunkBlocks(p, cursor + c, left - c) ==
               done + ChunkBlocks(p, cursor, left)
            && ChunkLists(p, lists, cursor, left) ==
               ChunkLists(p, Link(p, lists, cursor, c - G(p)), cursor + c, left - c)
            && ChunkedLength(p, left) == c + ChunkedLength(p, left - c)
  {
    hide Chunk, Link, G, H, Aligned;
    ChunkBounds(p, left);
    var c := Chunk(p, left);
    var hp := Heap(done, map[], lists);
    InsertStep(p, hp, cursor, left);
    var h1 := AddPool(p, hp, cursor, c);
    assert h1.blocks == WithPool(p, done, cursor, c);
    assert InsertAligned(p, hp, cursor, left).blocks == InsertAligned(p, h1, cursor + c, left - c).blocks;
    assert InsertAligned(p, hp, cursor, left).lists == InsertAligned(p, h1, cursor + c, left - c).lists;
  }

  lemma ChunksEmpty(p: Params)
    ensures forall size, start, lists {:trigger ChunkLists(p, lists, start, size)} ::
              size < 2 * G(p) ==> ChunkLists(p, lists, start, size) == lists
    ensures forall size, start {:trigger ChunkBlocks(p, start, size)} ::
              size < 2 * G(p) ==> ChunkBlocks(p, start, size) == map[]
    ensures forall size {:trigger ChunkedLength(p, size)} :: size < 2 * G(p) ==> ChunkedLength(p, size) == 0
    ensures forall m: Memory :: HeaderCells(map[], m)
    ensures forall start, free :: Laid(p, map[], start, start, free)
  {
  }

  /** Nothing but the range `[s, e)` and the links of free blocks changed. */
  ghost predicate OnlyWithin(p: Params, bs: Tiling, s: int, e: int, m: Memory, m': Memory) {
    forall a {:trigger Load(m', a)} :: !(s <= a < e) && !IsFree(bs, a - H(p)) ==> Load(m', a) == Load(m, a)
  }

  /** Outside the pools and outside `[s, e)` both memories agree. */
  ghost predicate OutsideKeptBut(p: Params, pools: Pools, s: int, e: int, m: Memory, m': Memory) {
    forall a :: !(s <= a < e) && (forall t :: t in pools ==> !(t <= a < pools[t] - H(p))) ==> Load(m', a) == Load(m, a)
  }

  /** A region in which no used block lies can be overwritten without harm to the payloads. */
  lemma WithinKeeps(p: Params, h: Heap, s: int, e: int, m: Memory, m': Memory)
    requires Inv(p, h) && OnlyWithin(p, h.blocks, s, e, m, m')
    requires forall b :: IsUsed(h.blocks, b) ==> b + h.blocks[b].size <= s || e <= b
    ensures OutsideKeptBut(p, h.pools, s, e, m, m')
    ensures forall x {:trigger PayloadKept(h.blocks, m, m', x)} :: PayloadKept(h.blocks, m, m', x)
  {
    hide ListsOk, G, H, Aligned, Pow2, Load, PayloadOk, TilingOk;
    forall x
      ensures PayloadKept(h.blocks, m, m', x)
    {
      if IsUsed(h.blocks, x) {
        PayloadShape(p, h, x);
        forall a | h.blocks[x].kind.ptr <= a < x + h.blocks[x].size
          ensures Load(m', a) == Load(m, a)
        {
          PayloadNotLink(p, h, x, a);
        }
      }
    }
    forall a | !(s <= a < e) && (forall t :: t in h.pools ==> !(t <= a < h.pools[t] - H(p)))
      ensures Load(m', a) == Load(m, a)
    {
      LinksInPools(p, h, a);
    }
  }

  lemma LinksInPools(p: Params, h: Heap, a: int)
    requires Inv(p, h) && (forall t :: t in h.pools ==> !(t <= a < h.pools[t] - H(p)))
    ensures !IsFree(h.blocks, a - H(p))
  {
    hide ListsOk, G, H, Aligned, PayloadOk, Apart, PoolOk, PoolsApart;
    assert BlockOk(p, h.pools, h.blocks, a - H(p));
  }

  /** Headers of blocks away from the overwritten range are still right. */
  lemma WithinHeader(p: Params, h: Heap, s: int, e: int, m: Memory, m': Memory, b: int)
    requires Inv(p, h) && HeadersOk(p, h.blocks, m) && OnlyWithin(p, h.blocks, s, e, m, m')
    requires b in h.blocks && (b + h.blocks[b].size <= s || e <= b)
    ensures HeaderOk(p, h.blocks, m', b)
  {
    hide ListsOk, G, H, Aligned, Pow2, Load, TilingOk, SizeWord;
    assert HeaderOk(p, h.blocks, m, b);
    NotHalfway(p, h, b);
    BlockPositive(p, h, b);
    if IsUsed(h.blocks, b) && p.gl <= h.blocks[b].kind.layout.alignLog {
      PadPlace(p, h, b);
      PayloadNotLink(p, h, b, h.blocks[b].kind.ptr - H(p));
    }
  }

  lemma BlockPositive(p: Params, h: Heap, b: int)
    requires Inv(p, h) && b in h.blocks
    ensures 0 < b && 0 < G(p) <= h.blocks[b].size
  {
    assert BlockOk(p, h.pools, h.blocks, b);
  }

  lemma PadPlace(p: Params, h: Heap, b: int)
    requires Inv(p, h) && IsUsed(h.blocks, b) && p.gl <= h.blocks[b].kind.layout.alignLog
    ensures b < h.blocks[b].kind.ptr - H(p) < b + h.blocks[b].size
  {
    assert BlockOk(p, h.pools, h.blocks, b);
  }

  /** After the chunks of a new region are written. */
  lemma AfterInsert(p: Params, h: Heap, start: int, size: int, end: int, m: Memory, m': Memory)
    requires Inv(p, h) && HeadersOk(p, h.blocks, m) && GoodRegion(p, h, start, size) && end <= start + size
    requires HeaderCells(ChunkBlocks(p, start, size), m') && OnlyWithin(p, h.blocks, start, end, m, m')
    ensures HeadersOk(p, InsertAligned(p, h, start, size).blocks, m')
    ensures OutsideKeptBut(p, h.pools, start, end, m, m')
    ensures forall x {:trigger PayloadKept(h.blocks, m, m', x)} :: PayloadKept(h.blocks, m, m', x)
  {
    hide Inv, HeadersOk, OnlyWithin, OutsideKeptBut, PayloadKept, G, H, Load, SizeWord, Aligned, Clear;
    forall b | b in h.blocks
      ensures b + h.blocks[b].size <= start || start + size <= b
    {
      AwayFromRegion(p, h, start, size, b);
    }
    WithinKeeps(p, h, start, end, m, m');
    AfterInsertHeaders(p, h, start, size, end, m, m');
  }

  lemma AwayFromRegion(p: Params, h: Heap, start: int, size: int, b: int)
    requires Inv(p, h) && Clear(h.pools, start, start + size) && b in h.blocks
    ensures b + h.blocks[b].size <= start || start + size <= b
  {
    OldBlock(p, h, start, size, b);
  }

  lemma AfterInsertHeaders(p: Params, h: Heap, start: int, size: int, end: int, m: Memory, m': Memory)
    requires Inv(p, h) && HeadersOk(p, h.blocks, m) && GoodRegion(p, h, start, size) && end <= start + size
    requires HeaderCells(ChunkBlocks(p, start, size), m') && OnlyWithin(p, h.blocks, start, end, m, m')
    ensures HeadersOk(p, InsertAligned(p, h, start, size).blocks, m')
  {
    hide Inv, OnlyWithin, G, H, Load, SizeWord, Aligned, Clear, ChunkBlocks, HeaderOk;
    var cb := ChunkBlocks(p, start, size);
    var bs' := InsertAligned(p, h, start, size).blocks;
    forall b
      ensures HeaderOk(p, bs', m', b)
    {
      if b in cb {
        ChunkKinds(p, start, size, b);
        FreshHeader(p, cb, bs', m', b);
      } else if b in h.blocks {
        AwayFromRegion(p, h, start, size, b);
        WithinHeader(p, h, start, end, m, m', b);
        SameHeader(p, h.blocks, bs', m', b);
      } else {
        NoHeader(p, bs', m', b);
      }
    }
  }

  lemma {:induction false} ChunkKinds(p: Params, start: int, size: int, b: int)
    requires b in ChunkBlocks(p, start, size)
    ensures !ChunkBlocks(p, start, size)[b].kind.Used?
    decreases size
  {
    hide G;
    var c := Chunk(p, size);
    if b != start && b != start + c - G(p) {
      ChunkKinds(p, start + c, size - c, b);
    }
  }

  lemma FreshHeader(p: Params, cb: Tiling, bs: Tiling, m: Memory, b: int)
    requires HeaderCells(cb, m) && b in cb && b in bs && bs[b] == cb[b] && !cb[b].kind.Used?
    ensures HeaderOk(p, bs, m, b)
  {
  }

  lemma SameHeader(p: Params, bs: Tiling, bs': Tiling, m: Memory, b: int)
    requires HeaderOk(p, bs, m, b) && b in bs && b in bs' && bs'[b] == bs[b]
    ensures HeaderOk(p, bs', m, b)
  {
  }

  lemma NoHeader(p: Params, bs: Tiling, m: Memory, b: int)
    requires b !in bs
    ensures HeaderOk(p, bs, m, b)
  {
  }

  lemma NothingChangedBut(p: Params, pools: Pools, bs: Tiling, m: Memory, s: int, e: int)
    ensures OutsideKeptBut(p, pools, s, e, m, m)
    ensures forall x {:trigger PayloadKept(bs, m, m, x)} :: PayloadKept(bs, m, m, x)
  {
  }

  lemma WiderBut(p: Params, pools: Pools, s: int, e: int, s': int, e': int, m: Memory, m': Memory)
    requires OutsideKeptBut(p, pools, s, e, m, m') && s' <= s && e <= e'
    ensures OutsideKeptBut(p, pools, s', e', m, m')
  {
    hide Load, H;
  }

  // ----- extending a pool -----

  lemma AppendPlan(p: Params, h: Heap, start: int, len: int)
    requires Inv(p, h) && EndsPool(p, h, start) && 0 <= len < Top(p)
    requires start + len <= Top(p) && Clear(h.pools, start, start + len)
    ensures start - G(p) in h.blocks && p.gl <= p.w
    ensures RoundDown(len, Pow2(p.gl)) == RoundDown(len, G(p)) && 0 <= RoundDown(len, G(p)) <= len
    ensures GoodRegion(p, h, start, RoundDown(len, G(p)))
  {
    hide ListsOk, Aligned, Pow2, RoundDown, H, Apart, PayloadOk, MaxPoolSize;
    WidthExceeds(p);
    RoundDownAligned(p, len);
    var cap := start - G(p);
    assert BlockOk(p, h.pools, h.blocks, cap);
    GranuleAligned(p);
    AlignedApart(p, cap, G(p));
  }

  lemma AppendedNonNegative(p: Params, len: nat)
    ensures 0 <= AppendedLength(p, len)
  {
    hide RoundDown, G, ChunkedLength, Aligned;
    RoundDownAligned(p, len);
    ChunkedLengthIs(p, RoundDown(len, G(p)));
  }

  lemma RoundDownAligned(p: Params, x: int)
    requires 0 <= x
    ensures G(p) == Pow2(p.gl)
    ensures 0 <= RoundDown(x, G(p)) <= x && Aligned(p, RoundDown(x, G(p)))
  {
    RoundDownProps(x, G(p));
  }

  /** The blocks at the end of a pool, as the words in memory show them. */
  lemma ExtendPlan(p: Params, h: Heap, m: Memory, start: int, n: int)
    requires Inv(p, h) && HeadersOk(p, h.blocks, m) && EndsPool(p, h, start)
    ensures var cap := start - G(p);
            && cap in h.blocks && Load(m, cap).w1 == h.blocks[cap].prev
            && var pen := h.blocks[cap].prev;
            && pen in h.blocks && !IsFree(h.blocks, pen - H(p)) && 0 < pen < cap
            && 0 <= Load(m, pen).w0 && (UsedBit(Load(m, pen).w0) <==> !IsFree(h.blocks, pen))
            && (IsFree(h.blocks, pen) ==> Load(m, pen).w0 == h.blocks[pen].size)
            && Load(m, pen).w1 == h.blocks[pen].prev
  {
    hide ListsOk, TilingOk, HeadersOk, SizeBits, UsedBit, SentinelBit, SizeWord, G, H, Load;
    var cap := start - G(p);
    SentinelHasPrev(p, h, cap);
    HasPrev(p, h.pools, h.blocks, cap);
    ReadHeader(p, h.pools, h.blocks, m, cap);
    ReadHeader(p, h.pools, h.blocks, m, h.blocks[cap].prev);
    NotHalfway(p, h, h.blocks[cap].prev);
  }

  lemma SentinelHasPrev(p: Params, h: Heap, b: int)
    requires Inv(p, h) && b in h.blocks && h.blocks[b].kind.Sentinel?
    ensures h.blocks[b].prev != 0
  {
    assert BlockOk(p, h.pools, h.blocks, b);
  }

  /** Without a maximum, a region becomes a single pool. */
  lemma ChunkWhole(p: Params, lists: Lists, start: int, size: int)
    requires MaxPoolSize(p).None? && 2 * G(p) <= size
    ensures ChunkBlocks(p, start, size) == WithPool(p, map[], start, size)
    ensures ChunkLists(p, lists, start, size) == Link(p, lists, start, size - G(p))
    ensures ChunkedLength(p, size) == size
  {
    hide G, Link;
    assert ChunkBlocks(p, start + size, 0) == map[];
    assert ChunkLists(p, Link(p, lists, start, size - G(p)), start + size, 0) == Link(p, lists, start, size - G(p));
  }

  /** Where the extension starts: at the free block before the sentinel, or else at the sentinel. */
  ghost function ExtendFrom(p: Params, h: Heap, start: int): int
    requires start - G(p) in h.blocks
  {
    var pen := h.blocks[start - G(p)].prev;
    if IsFree(h.blocks, pen) then pen else start - G(p)
  }

  lemma ExtendFromIs(p: Params, h: Heap, start: int, n: int)
    requires Inv(p, h) && EndsPool(p, h, start) && GoodRegion(p, h, start, n) && 0 < n
    ensures var lo := ExtendFrom(p, h, start);
            && 0 < lo < start && lo in h.blocks && lo + G(p) <= start && Aligned(p, start + n - lo)
            && 2 * G(p) <= start + n - lo && start + n <= Top(p)
            && (forall b :: b in h.blocks && lo <= b < start ==> b == lo || b == start - G(p))
            && (forall b :: b in h.blocks && !(lo <= b < start) ==> b + h.blocks[b].size <= lo || start + n <= b)
            && !IsFree(h.blocks, lo - H(p))
  {
    hide ListsOk, Aligned, G, H, PayloadOk, Pow2, Top, MaxPoolSize, PoolOk, PoolsApart;
    var cap := start - G(p);
    var pen := h.blocks[cap].prev;
    var lo := ExtendFrom(p, h, start);
    assert BlockOk(p, h.pools, h.blocks, cap);
    assert BlockOk(p, h.pools, h.blocks, pen);
    AlignedApart(p, lo, start);
    AlignedApart(p, 0, n);
    AlignedApart(p, n, n);
    AlignedApart(p, start, n);
    AlignedApart(p, lo, start + n);
    forall b | b in h.blocks
      ensures lo <= b < start ==> b == lo || b == cap
      ensures !(lo <= b < start) ==> b + h.blocks[b].size <= lo || start + n <= b
    {
      assert Apart(h.blocks, lo, b) && Apart(h.blocks, cap, b) && Apart(h.blocks, b, lo);
      OldBlock(p, h, start, n, b);
    }
    NotHalfway(p, h, lo);
  }

  /** After the extension of a pool is written. */
  lemma AfterExtend(p: Params, h: Heap, start: int, n: int, m: Memory, m': Memory)
    requires Inv(p, h) && HeadersOk(p, h.blocks, m) && EndsPool(p, h, start) && GoodRegion(p, h, start, n) && 0 < n
    requires var lo := ExtendFrom(p, h, start);
             && OnlyWithin(p, h.blocks, lo, start + n - H(p), m, m')
             && Load(m', lo) == Cell(start + n - G(p) - lo, h.blocks[lo].prev)
             && Load(m', start + n - G(p)) == Cell(SizeWord(Sentinel, G(p)), lo)
             && lo <= start + n - G(p)
    ensures HeadersOk(p, Extend(p, h, start, n).blocks, m')
    ensures OutsideKeptBut(p, h.pools, start - H(p), start + n - H(p), m, m')
    ensures forall x {:trigger PayloadKept(h.blocks, m, m', x)} :: PayloadKept(h.blocks, m, m', x)
  {
    hide Inv, OnlyWithin, OutsideKeptBut, PayloadKept, G, H, Load, Or, GoodRegion, Link, Unlink, HeaderOk, EndsPool;
    ExtendFromIs(p, h, start, n);
    EndsPoolIn(p, h, start);
    SentinelKind(p, h, start);
    var lo, last := ExtendFrom(p, h, start), start + n - G(p);
    WithinKeeps(p, h, lo, start + n - H(p), m, m');
    ExtendOutside(p, h, start, n, m, m');
    var bs' := Extend(p, h, start, n).blocks;
    forall b
      ensures HeaderOk(p, bs', m', b)
    {
      if b == lo || b == last {
        NewHeader(p, bs', m', b);
      } else if b in h.blocks && !(lo <= b < start) {
        WithinHeader(p, h, lo, start + n - H(p), m, m', b);
        SameHeader(p, h.blocks, bs', m', b);
      } else {
        NoHeader(p, bs', m', b);
      }
    }
  }

  lemma SentinelKind(p: Params, h: Heap, start: int)
    requires EndsPool(p, h, start)
    ensures start - G(p) in h.blocks && h.blocks[start - G(p)].kind.Sentinel?
  {
  }

  lemma NewHeader(p: Params, bs: Tiling, m: Memory, b: int)
    requires b in bs && 0 <= bs[b].size && !bs[b].kind.Used?
    requires Load(m, b) == Cell(SizeWord(bs[b].kind, bs[b].size), bs[b].prev)
    ensures HeaderOk(p, bs, m, b)
  {
  }

  /** Links and the assimilated blocks lie inside the old pool or the new bytes. */
  lemma ExtendOutside(p: Params, h: Heap, start: int, n: int, m: Memory, m': Memory)
    requires Inv(p, h) && EndsPool(p, h, start) && GoodRegion(p, h, start, n) && 0 < n
    requires OutsideKeptBut(p, h.pools, ExtendFrom(p, h, start), start + n - H(p), m, m')
    ensures OutsideKeptBut(p, h.pools, start - H(p), start + n - H(p), m, m')
  {
    hide ListsOk, Aligned, G, H, PayloadOk, Pow2, Top, MaxPoolSize, PoolOk, PoolsApart, Apart, Load;
    var cap := start - G(p);
    assert BlockOk(p, h.pools, h.blocks, cap);
    assert BlockOk(p, h.pools, h.blocks, h.blocks[cap].prev);
    assert h.blocks[cap].pool in h.pools;
  }

  /** The free blocks that stay listed are outside an extension. */
  lemma OutsideExtension(p: Params, h: Heap, start: int, n: int, x: int)
    requires Inv(p, h) && EndsPool(p, h, start) && GoodRegion(p, h, start, n) && 0 < n
    requires IsFree(h.blocks, x) && x != ExtendFrom(p, h, start)
    ensures x + G(p) <= ExtendFrom(p, h, start) || start + n <= x
  {
    hide Inv, G, H, GoodRegion, Aligned, Top;
    ExtendFromIs(p, h, start, n);
    BlockPositive(p, h, x);
  }

  lemma FirstAndLast(p: Params, lo: int, size: int, m: Memory)
    requires 2 * G(p) <= size && HeaderCells(WithPool(p, map[], lo, size), m)
    ensures Load(m, lo) == Cell(size - G(p), 0) && Load(m, lo + size - G(p)) == Cell(SizeWord(Sentinel, G(p)), lo)
  {
    hide G, Or, Load;
    assert lo in WithPool(p, map[], lo, size) && lo + size - G(p) in WithPool(p, map[], lo, size);
  }

  /** The lists of an extended heap. */
  lemma ExtendListsAre(p: Params, h: Heap, start: int, n: int, drop: seq<int>)
    requires start - G(p) in h.blocks && ExtendFrom(p, h, start) in h.blocks && !IsFree(h.blocks, start - G(p))
    requires drop == if ExtendFrom(p, h, start) == start - G(p) then [] else [ExtendFrom(p, h, start)]
    ensures var lo := ExtendFrom(p, h, start);
            Extend(p, h, start, n).lists == Link(p, UnlinkAll(p, h.lists, h.blocks, drop), lo, start + n - G(p) - lo)
  {
    hide G, Link, Unlink;
    var lo := ExtendFrom(p, h, start);
    UnlinkAllIs(p, h.lists, h.blocks, lo, lo);
  }
}
