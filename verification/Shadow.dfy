/**
 The reference allocator: a run-length map from addresses to what they are used for. An entry says what
 its address and all following ones are, up to the next entry.
 */
module Shadow {

  datatype Mark = Free | Used | Invalid

  type Regions = map<int, Mark>

  ghost predicate Based(r: Regions) {
    0 in r && forall k :: k in r ==> 0 <= k
  }

  /** The entry that covers an address: the last one at or below it. */
  function EntryAt(r: Regions, a: int): (k: int)
    requires 0 in r && 0 <= a
    ensures k in r && 0 <= k <= a
    ensures forall x :: x in r && k < x ==> a < x
    decreases a
  {
    if a in r then a else EntryAt(r, a - 1)
  }

  /** What an address is used for. */
  function At(r: Regions, a: int): Mark
    requires 0 in r && 0 <= a
  {
    r[EntryAt(r, a)]
  }

  ghost predicate Discontinuity(r: Regions, k: int)
    requires 0 in r
  {
    k in r && 0 < k ==> r[k] != At(r, k - 1)
  }

  /** Each entry represents a discontinuity. */
  ghost predicate Canonical(r: Regions) {
    Based(r) && forall k {:trigger Discontinuity(r, k)} :: Discontinuity(r, k)
  }

  /** All addresses of `[s, e)` have the given mark. */
  ghost predicate AllAre(r: Regions, s: int, e: int, m: Mark)
    requires 0 in r && 0 <= s
  {
    forall a :: s <= a < e ==> At(r, a) == m
  }

  /** `r'` marks `[s, e)` with `m` and every other address as `r` does. */
  ghost predicate Marks(r: Regions, s: int, e: int, m: Mark, r': Regions) {
    && Based(r) && Based(r')
    && forall a :: 0 <= a ==> At(r', a) == if s <= a < e then m else At(r, a)
  }

  // ----- run-length maps and functions -----

  lemma AtZero(r: Regions)
    requires 0 in r
    ensures At(r, 0) == r[0]
  {
  }

  lemma AtStep(r: Regions, a: int)
    requires 0 in r && 0 < a
    ensures At(r, a) == if a in r then r[a] else At(r, a - 1)
  {
  }

  /** What `[s, e)` marked with `m` over `r` makes of an address. */
  ghost function Updated(r: Regions, s: int, e: int, m: Mark, a: int): Mark
    requires 0 in r && 0 <= a
  {
    if s <= a < e then m else At(r, a)
  }

  /** `r'` has an entry exactly where the updated function changes, and with its value. */
  ghost predicate Exact(r: Regions, s: int, e: int, m: Mark, r': Regions, a: int)
    requires 0 in r && 0 <= a
  {
    && (a in r' <==> a == 0 || Updated(r, s, e, m, a) != Updated(r, s, e, m, a - 1))
    && (a in r' ==> r'[a] == Updated(r, s, e, m, a))
  }

  lemma {:induction false} ExactAt(r: Regions, s: int, e: int, m: Mark, r': Regions, a: int)
    requires 0 in r && 0 in r' && 0 <= a
    requires forall x :: 0 <= x <= a ==> Exact(r, s, e, m, r', x)
    ensures At(r', a) == Updated(r, s, e, m, a)
    decreases a
  {
    hide At, Updated;
    assert Exact(r, s, e, m, r', a);
    if a == 0 {
      AtZero(r');
    } else {
      AtStep(r', a);
      ExactAt(r, s, e, m, r', a - 1);
    }
  }

  /** A map with exactly the right entries is canonical and marks exactly the right addresses. */
  lemma ExactMarks(r: Regions, s: int, e: int, m: Mark, r': Regions)
    requires Based(r) && Based(r') && forall a :: 0 <= a ==> Exact(r, s, e, m, r', a)
    ensures Canonical(r') && Marks(r, s, e, m, r')
  {
    hide At;
    forall a | 0 <= a
      ensures At(r', a) == Updated(r, s, e, m, a)
    {
      ExactAt(r, s, e, m, r', a);
    }
    forall k
      ensures Discontinuity(r', k)
    {
      if k in r' && 0 < k {
        assert Exact(r, s, e, m, r', k);
      }
    }
  }

  /** The entries of a canonical map are the changes of the function it stands for. */
  lemma CanonicalEntry(r: Regions, a: int)
    requires Canonical(r) && 0 < a
    ensures a in r <==> At(r, a) != At(r, a - 1)
    ensures a in r ==> r[a] == At(r, a)
  {
    hide At;
    AtStep(r, a);
    assert Discontinuity(r, a);
  }

  /** An entry covers an address when no other entry lies between them. */
  lemma Covers(r: Regions, k: int, a: int)
    requires 0 in r && k in r && 0 <= k <= a && forall x :: x in r && k < x ==> a < x
    ensures EntryAt(r, a) == k && At(r, a) == r[k]
  {
    assert EntryAt(r, a) <= k;
  }

  /** A range has one mark exactly when a single entry with that mark covers it. */
  lemma OneEntry(r: Regions, s: int, e: int, m: Mark)
    requires Canonical(r) && 0 <= s < e
    ensures AllAre(r, s, e, m) <==> EntryAt(r, e - 1) <= s && r[EntryAt(r, e - 1)] == m
  {
    var k := EntryAt(r, e - 1);
    if k <= s {
      forall a | s <= a < e
        ensures At(r, a) == r[k]
      {
        Covers(r, k, a);
      }
      assert At(r, s) == r[k];
    } else {
      CanonicalEntry(r, k);
      assert At(r, k) != At(r, k - 1);
    }
  }

  lemma SameBelow(r: Regions, s: int, m: Mark, a: int)
    requires 0 in r && 0 <= a < s
    ensures At(r[s := m], a) == At(r, a)
  {
    var k := EntryAt(r, a);
    var r' := r[s := m];
    assert forall x :: x in r' && k < x ==> a < x;
    Covers(r', k, a);
  }

  lemma EntryZero(r: Regions)
    requires Canonical(r)
    ensures Based(r) && At(r, 0) == r[0]
  {
  }

  /** The entries left after a range has been converted. */
  ghost predicate Converted(r: Regions, s: int, e: int, oldMark: Mark, newMark: Mark, r': Regions)
    requires 0 in r && 0 <= s < e
  {
    && (forall k :: k != s && k != e ==> (k in r' <==> k in r) && (k in r' ==> r'[k] == r[k]))
    && (s in r' <==> s == 0 || At(r, s - 1) != newMark) && (s in r' ==> r'[s] == newMark)
    && (e in r' <==> !(e in r && r[e] == newMark)) && (e in r' ==> r'[e] == if e in r then r[e] else oldMark)
  }

  lemma ConvertedAt(r: Regions, s: int, e: int, oldMark: Mark, newMark: Mark, r': Regions, a: int)
    requires Canonical(r) && 0 <= s < e && oldMark != newMark && AllAre(r, s, e, oldMark)
    requires Converted(r, s, e, oldMark, newMark, r') && 0 <= a
    ensures Exact(r, s, e, newMark, r', a)
  {
    hide At, Canonical;
    EntryZero(r);
    assert At(r, s) == oldMark && At(r, e - 1) == oldMark;
    CanonicalEntry(r, e);
    if a > 0 {
      CanonicalEntry(r, a);
      if s < a < e {
        assert At(r, a) == oldMark && At(r, a - 1) == oldMark;
      }
    }
  }

  lemma ConvertedMarks(r: Regions, s: int, e: int, oldMark: Mark, newMark: Mark, r': Regions)
    requires Canonical(r) && 0 <= s < e && oldMark != newMark && AllAre(r, s, e, oldMark)
    requires Based(r') && Converted(r, s, e, oldMark, newMark, r')
    ensures Canonical(r') && Marks(r, s, e, newMark, r')
  {
    hide At, Canonical, AllAre, Converted, Exact, Marks;
    EntryZero(r);
    forall a | 0 <= a
      ensures Exact(r, s, e, newMark, r', a)
    {
      ConvertedAt(r, s, e, oldMark, newMark, r', a);
    }
    ExactMarks(r, s, e, newMark, r');
  }

  /** The three updates of a conversion leave the entries of `Converted`. */
  lemma ConvertedBy(r: Regions, s: int, e: int, oldMark: Mark, newMark: Mark, r1: Regions, r2: Regions)
    requires Based(r) && 0 <= s < e
    requires r1 == if s > 0 && At(r, s - 1) == newMark then r[s := newMark] - {s} else r[s := newMark]
    requires r2 == if e in r1 then (if r1[e] == newMark then r1 - {e} else r1) else r1[e := oldMark]
    ensures Based(r2) && Converted(r, s, e, oldMark, newMark, r2)
  {
    hide At;
  }

  // ----- removing a pool -----

  /** The entries left after `[s, e)` has been removed. */
  ghost predicate Removed(r: Regions, s: int, e: int, r': Regions)
    requires 0 in r && 0 <= s < e
  {
    && (forall k :: k < s || e < k ==> (k in r' <==> k in r) && (k in r' ==> r'[k] == r[k]))
    && (forall k :: s < k < e ==> k !in r')
    && (s in r' <==> s == 0 || At(r, s - 1) != Invalid) && (s in r' ==> r'[s] == Invalid)
    && (e in r' <==> At(r, e) != Invalid) && (e in r' ==> r'[e] == At(r, e))
  }

  lemma RemovedMarks(r: Regions, s: int, e: int, r': Regions)
    requires Canonical(r) && 0 <= s < e && Based(r') && Removed(r, s, e, r')
    ensures Canonical(r') && Marks(r, s, e, Invalid, r')
  {
    hide At, Canonical, Marks;
    EntryZero(r);
    forall a | 0 <= a
      ensures Exact(r, s, e, Invalid, r', a)
    {
      if a > 0 {
        CanonicalEntry(r, a);
      }
    }
    ExactMarks(r, s, e, Invalid, r');
  }

  lemma AtEntry(r: Regions, a: int)
    requires 0 in r && 0 <= a
    ensures At(r, a) == r[EntryAt(r, a)]
  {
  }

  /** Below an address without an entry of its own, the same entry covers. */
  lemma Before(r: Regions, a: int)
    requires 0 in r && 0 < a
    ensures EntryAt(r, a) < a ==> EntryAt(r, a) == EntryAt(r, a - 1)
  {
  }

  /** An update at `e` does not change what lies below it. */
  lemma SameBefore(r: Regions, r': Regions, s: int, e: int)
    requires 0 in r && 0 in r' && 0 < s < e
    requires forall k :: k < e ==> (k in r' <==> k in r) && (k in r' ==> r'[k] == r[k])
    ensures At(r', s - 1) == At(r, s - 1)
  {
    var k := EntryAt(r, s - 1);
    Covers(r, k, s - 1);
    Covers(r', k, s - 1);
  }

  lemma NothingRemoved(r: Regions, s: int, e: int)
    requires Based(r) && 0 <= s && e <= s
    ensures Marks(r, s, e, Invalid, r)
  {
  }

  /** The updates of a removal leave the entries of `Removed`. */
  lemma RemovedBy(r: Regions, s: int, e: int, r1: Regions, r2: Regions, r3: Regions)
    requires Based(r) && 0 <= s < e
    requires var k := EntryAt(r, e);
             && At(r, e) == r[k] && (k < e ==> r[k] != Invalid)
             && r1 == if k < e then r[e := r[k]] else if r[k] == Invalid then r - {e} else r
    requires r2 == if s == 0 || At(r, s - 1) != Invalid then r1[s := Invalid] else r1 - {s}
    requires forall k :: s < k < e ==> k !in r3
    requires forall k :: !(s < k < e) ==> (k in r3 <==> k in r2) && (k in r3 ==> r3[k] == r2[k])
    ensures Based(r3) && Removed(r, s, e, r3)
  {
    hide At, EntryAt;
  }

  lemma NothingMarked(r: Regions, s: int, m: Mark)
    requires Based(r) && 0 <= s
    ensures Marks(r, s, s, m, r)
  {
  }

  class ShadowAllocator {
    var regions: Regions

    ghost predicate Valid()
      reads this
    {
      Canonical(regions)
    }

    constructor ()
      ensures Valid() && regions == map[0 := Invalid]
      ensures forall a :: 0 <= a ==> At(regions, a) == Invalid
    {
      regions := map[0 := Invalid];
    }

    /** Change the mark of a range that has the expected mark throughout; the result tells whether the checks pass. */
    method ConvertRange(start: int, end: int, oldMark: Mark, newMark: Mark) returns (ok: bool)
      requires Valid() && 0 <= start <= end
      modifies this
      ensures Valid()
      ensures ok <==> start == end || (oldMark != newMark && AllAre(old(regions), start, end, oldMark))
      ensures ok ==> Marks(old(regions), start, end, newMark, regions)
      ensures !ok ==> regions == old(regions)
    {
      hide At, AllAre, Discontinuity, Marks, Converted;
      ghost var r := regions;
      EntryZero(r);
      if start == end {
        NothingMarked(r, start, newMark);
        return true;
      }
      if oldMark == newMark {
        return false;
      }
      OneEntry(r, start, end, oldMark);
      var addr := EntryAt(regions, end - 1);
      if addr > start || regions[addr] != oldMark {
        return false;
      }
      // insert an element at `start`
      regions := regions[start := newMark];
      if start > 0 {
        SameBelow(r, start, newMark, start - 1);
      }
      // unless it does not represent a discontinuity
      if start > 0 && At(regions, start - 1) == newMark {
        regions := regions - {start};
      }
      ghost var r1 := regions;
      if end in regions {
        if regions[end] == newMark {
          regions := regions - {end};
        }
      } else {
        regions := regions[end := oldMark];
      }
      ConvertedBy(r, start, end, oldMark, newMark, r1, regions);
      ConvertedMarks(r, start, end, oldMark, newMark, regions);
      ok := true;
    }

    /** Mark a new range of memory as free. */
    method InsertFreeBlock(start: int, len: int) returns (ok: bool)
      requires Valid() && 0 <= start && 0 <= len
      modifies this
      ensures Valid() && (ok <==> AllAre(old(regions), start, start + len, Invalid))
      ensures ok ==> Marks(old(regions), start, start + len, Free, regions)
      ensures !ok ==> regions == old(regions)
    {
      ok := ConvertRange(start, start + len, Invalid, Free);
    }

    /** The same for a range that must follow a pool. */
    method AppendFreeBlock(start: int, len: int) returns (ok: bool)
      requires Valid() && 0 <= start && 0 <= len
      modifies this
      ensures Valid()
      ensures ok <==>
              && 0 < start && At(old(regions), start) == Invalid && At(old(regions), start - 1) != Invalid
              && AllAre(old(regions), start, start + len, Invalid)
      ensures ok ==> Marks(old(regions), start, start + len, Free, regions)
      ensures !ok ==> regions == old(regions)
    {
      if start > 0 {
        CanonicalEntry(regions, start);
      }
      if !(start in regions && regions[start] == Invalid) || start == 0 || At(regions, start - 1) == Invalid {
        return false;
      }
      ok := InsertFreeBlock(start, len);
    }

    /** Mark an allocation as used. */
    method Allocate(size: int, align: int, start: int) returns (ok: bool)
      requires Valid() && 0 <= start && 0 <= size && 0 < align
      modifies this
      ensures Valid() && (ok <==> start % align == 0 && AllAre(old(regions), start, start + size, Free))
      ensures ok ==> Marks(old(regions), start, start + size, Used, regions)
      ensures !ok ==> regions == old(regions)
    {
      if start % align != 0 {
        return false;
      }
      ok := ConvertRange(start, start + size, Free, Used);
    }

    /** Mark an allocation as free again. */
    method Deallocate(size: int, align: int, start: int) returns (ok: bool)
      requires Valid() && 0 <= start && 0 <= size && 0 < align
      modifies this
      ensures Valid() && (ok <==> start % align == 0 && AllAre(old(regions), start, start + size, Used))
      ensures ok ==> Marks(old(regions), start, start + size, Free, regions)
      ensures !ok ==> regions == old(regions)
    {
      if start % align != 0 {
        return false;
      }
      ok := ConvertRange(start, start + size, Used, Free);
    }

    /** Forget a pool, in which no address may be invalid. */
    method RemovePool(start: int, len: int) returns (ok: bool)
      requires Valid() && 0 <= start
      modifies this
      ensures Valid()
      ensures ok <==> forall a :: start <= a < start + len ==> At(old(regions), a) != Invalid
      ensures ok ==> Marks(old(regions), start, start + len, Invalid, regions)
      ensures !ok ==> regions == old(regions)
    {
      hide At, Canonical, Marks, Removed;
      ghost var r := regions;
      EntryZero(r);
      var end := start + len;
      if start >= end {
        NothingRemoved(r, start, end);
        return true;
      }
      ok := NoInvalid(start, end);
      if !ok {
        return;
      }
      // create a discontinuity at `end` if needed
      var addr := EntryAt(regions, end);
      var mark := regions[addr];
      AtEntry(r, end);
      if addr < end && mark != Invalid {
        regions := regions[end := mark];
      } else if addr == end && mark == Invalid {
        regions := regions - {end};
      }
      assert addr < end ==> mark != Invalid by {
        AtEntry(r, end - 1);
        Before(r, end);
      }
      ghost var r1 := regions;
      // create a discontinuity at `start` if needed
      if start > 0 {
        SameBefore(r, r1, start, end);
        if At(regions, start - 1) != Invalid {
          regions := regions[start := Invalid];
        } else {
          regions := regions - {start};
        }
      } else {
        regions := regions[start := Invalid];
      }
      ghost var r2 := regions;
      assert Based(r2);
      RemoveBetween(start, end);
      RemovedBy(r, start, end, r1, r2, regions);
      RemovedMarks(r, start, end, regions);
    }

    /** Remove the entries strictly between two addresses. */
    method RemoveBetween(start: int, end: int)
      requires Based(regions) && 0 <= start < end
      modifies this
      ensures forall k :: start < k < end ==> k !in regions
      ensures forall k :: !(start < k < end) ==>
                (k in regions <==> k in old(regions)) && (k in regions ==> regions[k] == old(regions)[k])
    {
      var key := EntryAt(regions, end - 1);
      while key > start
        invariant Based(regions) && key in regions && 0 <= key < end
        invariant forall k :: key < k < end ==> k !in regions
        invariant forall k :: !(start < k < end) ==>
                    (k in regions <==> k in old(regions)) && (k in regions ==> regions[k] == old(regions)[k])
      {
        regions := regions - {key};
        key := EntryAt(regions, key - 1);
      }
    }

    /** Look for an invalid entry in a range, from its end downwards. */
    method NoInvalid(start: int, end: int) returns (ok: bool)
      requires Valid() && 0 <= start < end
      ensures ok <==> forall a :: start <= a < end ==> At(regions, a) != Invalid
    {
      hide At, Canonical, Discontinuity;
      EntryZero(regions);
      var addr := EntryAt(regions, end - 1);
      ghost var hi := end;
      while true
        invariant start < hi <= end && addr == EntryAt(regions, hi - 1)
        invariant forall a :: hi <= a < end ==> At(regions, a) != Invalid
        decreases addr
      {
        forall a | addr <= a < hi
          ensures At(regions, a) == regions[addr]
        {
          Covers(regions, addr, a);
        }
        if regions[addr] == Invalid {
          assert At(regions, if addr < start then start else addr) == Invalid;
          return false;
        }
        if addr <= start {
          return true;
        }
        hi := addr;
        addr := EntryAt(regions, addr - 1);
      }
    }
  }
}
