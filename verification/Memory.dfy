/**
 Memory and what is written into it. The unit of memory is a cell of two words, half a granule: a block
 header, the pair of links of a free block, the pad before a strongly aligned payload (its second
 word) and a pool footer each take one cell. Payloads are runs of cells.
 */
module Memory {
  import opened Arith
  import opened Bits
  import opened Config
  import opened SizeClass
  import opened Blocks

  datatype Cell = Cell(w0: int, w1: int)

  type Memory = map<int, Cell>

  /** Every address can be read; what was never written is unspecified by every contract. */
  function Load(m: Memory, a: int): Cell {
    if a in m then m[a] else Cell(0, 0)
  }

  function Store(m: Memory, a: int, c: Cell): (m': Memory)
    ensures forall x {:trigger Load(m', x)} :: Load(m', x) == if x == a then c else Load(m, x)
  {
    m[a := c]
  }

  /** Copy `[src, src + n)` to `[dst, dst + n)` as if through a buffer, so that the two may overlap. */
  function Move(m: Memory, src: int, dst: int, n: nat): (m': Memory)
    ensures forall a {:trigger Load(m', a)} ::
              Load(m', a) == if dst <= a < dst + n then Load(m, a - dst + src) else Load(m, a)
  {
    assert forall a :: a in Interval(dst, n) <==> dst <= a < dst + n by {
      forall a
        ensures a in Interval(dst, n) <==> dst <= a < dst + n
      {
        IntervalIs(dst, n, a);
      }
    }
    var keys := m.Keys + Interval(dst, n);
    map a {:trigger a in keys} | a in keys ::
      if dst <= a < dst + n then Load(m, a - dst + src) else Load(m, a)
  }

  function Interval(start: int, n: nat): set<int> {
    if n == 0 then {} else Interval(start, n - 1) + {start + n - 1}
  }

  lemma {:induction false} IntervalIs(start: int, n: nat, a: int)
    ensures a in Interval(start, n) <==> start <= a < start + n
  {
    if n != 0 {
      IntervalIs(start, n - 1, a);
    }
  }

  // ----- the size word -----

  const SIZE_USED := 1
  const SIZE_SENTINEL := 2

  function SizeWord(kind: Kind, size: nat): nat {
    match kind
    case Free => size
    case Used(_, _) => Or(size, SIZE_USED)
    case Sentinel => Or(Or(size, SIZE_USED), SIZE_SENTINEL)
  }

  predicate UsedBit(x: nat) {
    And(x, SIZE_USED) != 0
  }

  predicate SentinelBit(x: nat) {
    And(x, SIZE_SENTINEL) != 0
  }

  /** The size without the flags. */
  function SizeBits(p: Params, x: nat): nat
    requires x < Top(p)
  {
    WidthExceeds(p);
    And(x, Not(G(p) - 1, p.w))
  }

  lemma OrOne(y: nat)
    ensures Or(2 * y, 1) == 2 * y + 1
  {
    if y != 0 {
      assert Or(y, 0) == y;
    }
  }

  lemma OrTwo(y: nat)
    ensures Or(4 * y + 1, 2) == 4 * y + 3
  {
    OrOne(y);
    assert (4 * y + 1) / 2 == 2 * y;
  }

  lemma AndTwo(x: nat)
    ensures And(x, 2) == 2 * (x / 2 % 2)
  {
    if x != 0 {
      assert And(x / 2, 1) == x / 2 % 2 by {
        AndOnes(x / 2, 1);
        assert Pow2(1) == 2;
      }
    }
  }

  lemma MultipleOfFour(p: Params, size: nat)
    requires size % G(p) == 0
    ensures size % 4 == 0
  {
    MultipleOfSmaller(size, 2, p.gl);
    assert Pow2(2) == 4;
  }

  /** The flags and the size can be read back from the word. */
  lemma SizeWordIs(p: Params, kind: Kind, size: nat)
    requires Granular(p, size)
    ensures var x := SizeWord(kind, size);
            && x == size + (if kind.Free? then 0 else if kind.Used? then 1 else 3)
            && x < Top(p) && SizeBits(p, x) == size
            && (UsedBit(x) <==> !kind.Free?) && (SentinelBit(x) <==> kind.Sentinel?)
  {
    hide Granular, And, Or, Not, SizeBits, G, SizeWord;
    GranularMultiple(p, size);
    MultipleOfFour(p, size);
    SizeWordValue(kind, size);
    GranularRoom(p, size);
    var f := if kind.Free? then 0 else if kind.Used? then 1 else 3;
    FlagsOf(size, f);
    SizeBitsOf(p, size, f);
  }

  lemma SizeWordValue(kind: Kind, size: nat)
    requires size % 4 == 0
    ensures SizeWord(kind, size) == size + (if kind.Free? then 0 else if kind.Used? then 1 else 3)
  {
    hide Or;
    OrOne(2 * (size / 4));
    OrTwo(size / 4);
  }

  lemma FlagsOf(size: nat, f: nat)
    requires size % 4 == 0 && f in {0, 1, 3}
    ensures And(size + f, SIZE_USED) != 0 <==> f != 0
    ensures And(size + f, SIZE_SENTINEL) != 0 <==> f == 3
  {
    hide And;
    AndOnes(size + f, 1);
    AndTwo(size + f);
    assert Pow2(1) == 2;
  }

  lemma GranularRoom(p: Params, size: nat)
    requires Granular(p, size)
    ensures size + G(p) <= Top(p)
  {
    WidthExceeds(p);
    Pow2Add(p.w - p.gl, p.gl);
    MultipleIs(Pow2(p.w - p.gl), G(p));
    MultipleDiff(size, Top(p), G(p));
  }

  lemma SizeBitsOf(p: Params, size: nat, f: nat)
    requires size % G(p) == 0 && f < 4 && size + f < Top(p)
    ensures SizeBits(p, size + f) == size
  {
    hide And, Not, RoundDown, Pow2, G;
    WidthExceeds(p);
    GranulePow2(p);
    AndNotOnes(size + f, p.gl, p.w);
    RoundDownDrops(size, f, G(p));
  }
}
