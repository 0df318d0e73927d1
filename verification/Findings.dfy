/** Inputs on which the source does not do what it means to, and exactly when it does. */
module Findings {
  import opened Arith
  import opened Bits
  import opened Config
  import opened SizeClass
  import opened Blocks
  import opened Operations
  import opened Memory
  import opened Represent
  import opened Growth
  import opened Regions
  import opened Flex

  // ----- the assertion behind the growth of a region -----

  /** Subtraction of words, which must not underflow. */
  function CheckedSub(x: nat, y: nat): Option<nat> {
    if x < y then None else Some(x - y)
  }

  /** The assertion after `len - poolLen` bytes were appended to a pool of `poolLen` bytes, as it is written. */
  predicate GrowthAssertion(p: Params, poolLen: nat, len: nat)
    requires poolLen <= len
  {
    AppendedNonNegative(p, len - poolLen);
    var r := CheckedSub(poolLen + AppendedLength(p, len - poolLen), len);
    r.Some? && r.value < 2 * G(p)
  }

  /** A granular region is pooled to its last byte unless a single granule is left behind chunks of the maximum size. */
  lemma {:induction false} ChunkedAllIff(p: Params, n: nat)
    requires Aligned(p, n) && 2 * G(p) <= n
    ensures ChunkedLength(p, n) == n <==> (MaxPoolSize(p).Some? ==> n % MaxPoolSize(p).value != G(p))
    decreases n
  {
    hide Aligned, G, Chunk;
    ChunkBounds(p, n);
    ChunkIs(p, n);
    if MaxPoolSize(p).Some? {
      var m := MaxPoolSize(p).value;
      MaxAligned(p);
      if n < m {
        DivSmall(n, m);
      } else {
        RemainderStep(n, m);
        AlignedApart(p, m, n);
        if 2 * G(p) <= n - m {
          ChunkedAllIff(p, n - m);
        } else {
          DivSmall(n - m, m);
          SmallMultiple(p, n - m);
        }
      }
    }
  }

  lemma SmallMultiple(p: Params, x: int)
    requires Aligned(p, x) && 0 <= x < 2 * G(p)
    ensures x == 0 || x == G(p)
  {
    hide Aligned, G;
    GranuleAligned(p);
    AlignedApart(p, 0, x);
    AlignedApart(p, G(p), x);
    AlignedApart(p, G(p), G(p));
    AlignedApart(p, x, 2 * G(p));
    AlignedApart(p, x, G(p));
  }

  /** Appended bytes are all taken exactly when they are whole granules with no single granule left over. */
  lemma AppendedAllIff(p: Params, d: nat)
    requires 2 * G(p) <= d
    ensures AppendedLength(p, d) == d <==>
            Aligned(p, d) && (MaxPoolSize(p).Some? ==> d % MaxPoolSize(p).value != G(p))
  {
    hide Aligned, G, RoundDown, ChunkedLength;
    RoundedRest(p, d);
    if Aligned(p, d) {
      RoundDownGranular(p, d, d);
      if MaxPoolSize(p).Some? {
        ChunkedAllIff(p, d);
      }
    }
  }

  /**
   The assertion holds exactly when the grown region is pooled to its last byte, which the length of the region
   tells.
   */
  lemma GrowthAssertionIff(p: Params, poolLen: nat, len: nat)
    requires poolLen + 2 * G(p) <= len
    ensures var d := len - poolLen;
            GrowthAssertion(p, poolLen, len) <==>
            Aligned(p, d) && (MaxPoolSize(p).Some? ==> d % MaxPoolSize(p).value != G(p))
  {
    hide Aligned, G, AppendedLength;
    AppendedAllIff(p, len - poolLen);
    AppendedAtMost(p, len - poolLen);
  }

  lemma AppendedAtMost(p: Params, d: nat)
    requires 2 * G(p) <= d
    ensures AppendedLength(p, d) <= d
  {
    hide G, RoundDown, ChunkedLength, Aligned;
    RoundedRest(p, d);
  }

  /**
   A failing input for every allocation and every pool: a source with one region may answer a request to grow it
   with one byte more than requested, and then the assertion underflows.
   */
  lemma GrowthAssertionFails(src: Source, layout: Layout, pool: Pool)
    requires src.supportsGrow && src.live == map[pool.allocStart := pool.allocLen]
    requires 0 < pool.allocStart && 0 <= pool.poolLen
    requires PoolSizeToContainAllocation(src.p, layout).Some?
    requires pool.allocStart + pool.poolLen + PoolSizeToContainAllocation(src.p, layout).value < Top(src.p)
    requires pool.allocLen <= pool.poolLen + PoolSizeToContainAllocation(src.p, layout).value
    ensures var len := pool.poolLen + PoolSizeToContainAllocation(src.p, layout).value + 1;
            && src.Offered(Region(pool.allocStart, len), pool.allocStart)
            && !GrowthAssertion(src.p, pool.poolLen, len)
  {
    hide PoolSizeToContainAllocation, Aligned, G, GrowthAssertion, Top;
    var v := PoolSizeToContainAllocation(src.p, layout).value;
    PoolSizeOk(src.p, layout);
    GrowthAssertionIff(src.p, pool.poolLen, pool.poolLen + v + 1);
    NextNotAligned(src.p, v);
  }

  lemma NextNotAligned(p: Params, x: int)
    requires Aligned(p, x)
    ensures !Aligned(p, x + 1)
  {
    hide Aligned, G;
    if Aligned(p, x + 1) {
      AlignedApart(p, x, x + 1);
    }
  }

  // ----- the alignment of footers -----

  /**
   A footer is at a word boundary exactly when the source does not promise word alignment or the region ends at
   one.
   */
  lemma FooterAlignedIff(p: Params, alignLog: nat, r: Region)
    requires RegionOk(p, r)
    ensures 0 < Pow2(p.gl - 2)
    ensures FooterOf(p, alignLog, r) % Pow2(p.gl - 2) == 0 <==> alignLog < p.gl - 2 || End(r) % Pow2(p.gl - 2) == 0
  {
    hide Pow2, RoundDown, FooterOf, RegionOk, End;
    FooterBounds(p, alignLog, r);
    HalfIsTwoWords(p);
    var word := Pow2(p.gl - 2);
    RoundDownProps(End(r) - H(p), word);
    MultipleIs(2, word);
    if End(r) % word == 0 {
      MultipleDiff(End(r), 2 * word, word);
    }
    if (End(r) - H(p)) % word == 0 {
      MultipleDiff(End(r) - H(p), 2 * word, word);
    }
  }

  /**
   A failing input for every allocation: a source that promises the alignment of a word, but not of a granule, may
   answer the request that is made for it with one byte more.
   */
  lemma FooterMisaligned(src: Source, layout: Layout, start: int)
    requires src.supportsDealloc && src.live == map[]
    requires 3 <= src.p.gl && src.p.gl - 2 <= src.minAlignLog < src.p.gl
    requires PoolSizeToContainAllocation(src.p, layout).Some?
    requires 0 < start && start % Pow2(src.minAlignLog) == 0
    requires start + PoolSizeToContainAllocation(src.p, layout).value + G(src.p) < Top(src.p)
    ensures var bytes := PoolSizeToContainAllocation(src.p, layout).value + G(src.p);
            var r := Region(start, bytes + 1);
            && AskedForRegion(src.p, bytes - G(src.p), src, [], [NewRegion(bytes, true)], true)
            && src.Offered(r, 0) && !src.WellAligned()
            && RegionOk(src.p, r) && 0 < Pow2(src.p.gl - 2)
            && FooterOf(src.p, src.minAlignLog, r) % Pow2(src.p.gl - 2) != 0
  {
    hide FooterOf, Pow2, PoolSizeToContainAllocation, Top, G, Aligned, FitsMax, Granular, SearchSize, MapCeilAndUnmap;
    var p := src.p;
    var bytes := PoolSizeToContainAllocation(p, layout).value + G(p);
    PoolSizeOk(p, layout);
    GranuleAligned(p);
    AlignedApart(p, bytes - G(p), G(p));
    var r := Region(start, bytes + 1);
    FooterAlignedIff(p, src.minAlignLog, r);
    EndsOffWord(p, src.minAlignLog, start, bytes);
  }

  lemma EndsOffWord(p: Params, alignLog: nat, start: int, bytes: int)
    requires 3 <= p.gl && p.gl - 2 <= alignLog && start % Pow2(alignLog) == 0 && Aligned(p, bytes)
    ensures 2 <= Pow2(p.gl - 2) && (start + bytes + 1) % Pow2(p.gl - 2) != 0
  {
    hide Pow2, Aligned;
    WordOfMany(p);
    AlignedToWords(p, bytes);
    var word := Pow2(p.gl - 2);
    MultipleOfSmaller(start, p.gl - 2, alignLog);
    MultipleDiff(start, bytes, word);
    if (start + bytes + 1) % word == 0 {
      MultipleDiff(start + bytes, start + bytes + 1, word);
    }
  }

  lemma WordOfMany(p: Params)
    requires 3 <= p.gl
    ensures 2 <= Pow2(p.gl - 2)
  {
    assert Pow2(p.gl - 2) == 2 * Pow2(p.gl - 3);
  }

  // ----- well-aligned sources that return a broken granule -----

  /**
   A failing input where `ChunksGranular` does not hold: with one byte more than two granules, the only chunk gives
   a free block that is put on a list of the first level while its size word says that it is in use and that it is
   smaller than it is.
   */
  lemma BrokenGranule(p: Params)
    requires 2 <= p.fllen
    ensures var size := 2 * G(p) + 1;
            && !ChunksGranular(p, size) && Chunk(p, size) == size
            && UsedBit(size - G(p)) && Log2(size - G(p)) == p.gl
            && size - G(p) < Top(p) && SizeBits(p, size - G(p)) == G(p) < size - G(p)
  {
    hide ChunksGranular, And, Pow2, G, Aligned, CutsGranules, Log2, SizeBits;
    GranuleEven(p);
    NotCut(p);
    ChunksGranularIff(p, 2 * G(p) + 1);
    AndOnes(G(p) + 1, 1);
    FirstLevel(p);
    GranuleAligned(p);
    GranuleFits(p);
    SizeBitsOf(p, G(p), 1);
  }

  lemma FirstLevel(p: Params)
    ensures Log2(G(p) + 1) == p.gl
  {
    hide Log2, Pow2, G;
    GranulePow2(p);
    Log2Unique(G(p) + 1, p.gl);
  }

  lemma GranuleFits(p: Params)
    ensures G(p) + 1 < Top(p) && G(p) % G(p) == 0
  {
    WidthExceeds(p);
    Pow2Mono(p.gl + 1, p.w);
    MultipleIs(1, G(p));
  }

  lemma NotCut(p: Params)
    requires 2 <= p.fllen
    ensures !CutsGranules(p, 2 * G(p) + 1) && Chunk(p, 2 * G(p) + 1) == 2 * G(p) + 1
  {
    hide Pow2, G, Aligned, MaxPoolSize;
    TwoGranules(p);
    NextNotAligned(p, 2 * G(p));
    LargeMax(p);
    if MaxPoolSize(p).Some? {
      DivSmall(2 * G(p) + 1, MaxPoolSize(p).value);
    }
  }

  lemma GranuleEven(p: Params)
    ensures Pow2(1) == 2 && (G(p) + 1) % 2 == 1
  {
    hide Pow2, G;
    Two();
    GranuleFits(p);
    MultipleOfFour(p, G(p));
  }

  lemma Two()
    ensures Pow2(1) == 2
  {
  }

  lemma TwoGranules(p: Params)
    ensures Aligned(p, G(p)) && Aligned(p, 2 * G(p))
  {
    hide Aligned, G;
    GranuleAligned(p);
    AlignedApart(p, G(p), G(p));
  }

  lemma LargeMax(p: Params)
    requires 2 <= p.fllen
    ensures MaxPoolSize(p).Some? ==> 4 * G(p) <= MaxPoolSize(p).value
  {
    Pow2Mono(p.gl + 2, p.gl + p.fllen);
    assert Pow2(p.gl + 2) == 2 * Pow2(p.gl + 1);
  }
}
