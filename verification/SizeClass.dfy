/** The compile-time parameters of the allocator and the constants derived from them. */
module Config {
  import opened Arith

  datatype Option<+T> = None | Some(value: T)

  /**
   `w` is the number of bits of a machine word, `gl` the logarithm of the granularity, `fllen` and
   `Pow2(sli)` the numbers of first- and second-level lists, `flBits` and `slBits` the widths of the
   two bitmap types.
   */
  datatype RawParams = RawParams(w: nat, gl: nat, fllen: nat, sli: nat, flBits: nat, slBits: nat)

  /** A granule is four words of `w / 8` bytes, and the bitmap types are wide enough. */
  predicate ValidParams(c: RawParams) {
    && 2 <= c.gl <= 31
    && c.w == Pow2(c.gl + 1)
    && c.sli + 1 < c.w
    && 1 <= c.fllen <= c.flBits
    && Pow2(c.sli) <= c.slBits
  }

  type Params = c: RawParams | ValidParams(c) witness RawParams(16, 3, 8, 2, 8, 8)

  /** GRANULARITY */
  function G(p: Params): (r: nat)
    ensures r >= 4
  {
    assert Pow2(p.gl) == 4 * Pow2(p.gl - 2);
    Pow2(p.gl)
  }

  /** Half a granule: the size of a block header, of a pair of list links and of a pool footer. */
  function H(p: Params): (r: nat)
    ensures r >= 2 && G(p) == 2 * r
  {
    assert Pow2(p.gl - 1) == 2 * Pow2(p.gl - 2);
    Pow2(p.gl - 1)
  }

  /** One past the largest word. */
  function Top(p: Params): nat {
    Pow2(p.w)
  }

  function Sllen(p: Params): (r: nat)
    ensures r > 0
  {
    Pow2(p.sli)
  }

  function MaxPoolSize(p: Params): Option<nat> {
    if p.gl + p.fllen < p.w then Some(Pow2(p.gl + p.fllen)) else None
  }

  lemma GranulePow2(p: Params)
    ensures G(p) == Pow2(p.gl)
  {
  }

  lemma WidthExceeds(p: Params)
    ensures p.gl + 1 < p.w
    ensures 4 * G(p) <= Top(p)
  {
    Pow2Exceeds(p.gl + 1);
    Pow2Mono(p.gl + 1, p.w);
    assert Pow2(p.gl + 1) == 2 * Pow2(p.gl);
    Pow2Mono(p.gl + 1, p.w - 1);
    assert Pow2(p.w) == 2 * Pow2(p.w - 1);
  }
}

/** The mapping between block sizes and segregated free lists. */
module SizeClass {
  import opened Arith
  import opened Bits
  import opened Config

  /** A free list is named by its first- and second-level index. */
  datatype Class = Class(fl: nat, sl: nat)

  predicate ValidClass(p: Params, c: Class) {
    c.fl < p.fllen && c.sl < Sllen(p)
  }

  /** The order in which lists are searched. */
  predicate Leq(c: Class, d: Class) {
    c.fl < d.fl || (c.fl == d.fl && c.sl <= d.sl)
  }

  /** A size that a block can have: a positive multiple of the granularity that fits a word. */
  predicate Granular(p: Params, size: int) {
    G(p) <= size < Top(p) && size % G(p) == 0
  }

  // ----- the source's computation -----

  function LeadingZeros(p: Params, x: nat): nat
    requires 0 < x < Top(p)
  {
    Log2Below(x, p.w);
    p.w - 1 - Log2(x)
  }

  /** Subtraction on 32-bit unsigned integers. */
  function WrappingSub32(a: nat, b: nat): nat {
    (a - b) % 0x1_0000_0000
  }

  function Shr(x: nat, k: nat): nat {
    DivGalois(0, x, Pow2(k));
    x / Pow2(k)
  }

  function RotateRight(x: nat, n: nat, w: nat): nat
    requires w > 0
  {
    var k := n % w;
    DivGalois(0, x, Pow2(k));
    MulLe(0, x % Pow2(k), Pow2(w - k));
    x / Pow2(k) + x % Pow2(k) * Pow2(w - k)
  }

  function FlOf(p: Params, size: nat): (fl: nat)
    requires Granular(p, size)
    ensures fl + p.gl == Log2(size) < p.w
  {
    GranularLog(p, size);
    p.w - p.gl - 1 - LeadingZeros(p, size)
  }

  function Rotated(p: Params, size: nat): nat
    requires Granular(p, size)
  {
    RotateRight(size, WrappingSub32(FlOf(p, size) + p.gl, p.sli), p.w)
  }

  function MapFloor(p: Params, size: nat): Option<Class>
    requires Granular(p, size)
  {
    var fl := FlOf(p, size);
    var sl := Rotated(p, size);
    if fl >= p.fllen then None
    else Some(Class(fl, And(sl, Sllen(p) - 1)))
  }

  function MapCeil(p: Params, size: nat): Option<Class>
    requires Granular(p, size)
  {
    var fl := FlOf(p, size);
    var sl := Rotated(p, size);
    var sl1 := And(sl, Sllen(p) - 1) + (if sl >= Pow2(p.sli + 1) then 1 else 0);
    var fl1 := fl + Shr(sl1, p.sli);
    if fl1 >= p.fllen then None
    else Some(Class(fl1, And(sl1, Sllen(p) - 1)))
  }

  function MaxMapCeilAndUnmapInput(p: Params): nat {
    WidthExceeds(p);
    ShrSmaller(Top(p) - 1, p.sli + 1);
    var max1 := Not(Shr(Top(p) - 1, p.sli + 1), p.w);
    if p.fllen - 1 < p.w - p.gl - 1
    then Shr(max1, (p.w - p.gl - 1) - (p.fllen - 1))
    else max1
  }

  function MapCeilAndUnmap(p: Params, size: nat): Option<nat>
    requires Granular(p, size)
  {
    if size > MaxMapCeilAndUnmapInput(p) then None
    else
      var fl := FlOf(p, size);
      if p.gl < p.sli && fl < p.sli - p.gl then Some(size)
      else
        var shift := fl + p.gl - p.sli;
        Pow2Mono(shift, p.w);
        Some(And(size + (Pow2(shift) - 1), Not(Pow2(shift) - 1, p.w)))
  }

  // ----- an independent description of the lists -----

  /** The smallest size that list `c` holds, scaled by the number of second-level lists. */
  function LowerBound(p: Params, c: Class): nat {
    Pow2(c.fl + p.gl) * (Sllen(p) + c.sl)
  }

  /** The size's leading `sli + 1` digits. */
  ghost function Mantissa(p: Params, size: nat): nat
    requires size > 0
  {
    MulLe(0, size, Sllen(p));
    DivGalois(0, size * Sllen(p), Pow2(Log2(size)));
    size * Sllen(p) / Pow2(Log2(size))
  }

  /** Whether digits remain below the mantissa. */
  ghost predicate Inexact(p: Params, size: nat)
    requires size > 0
  {
    size * Sllen(p) % Pow2(Log2(size)) != 0
  }

  /** `map_floor` without the limit on the number of lists. */
  ghost function Floor(p: Params, size: nat): (c: Class)
    requires Granular(p, size)
    ensures c.sl < Sllen(p) && c.fl + p.gl == Log2(size)
  {
    MantissaRange(p, size);
    Class(FlOf(p, size), Mantissa(p, size) - Sllen(p))
  }

  /** `map_ceil` without the limit on the number of lists. */
  ghost function Ceil(p: Params, size: nat): (c: Class)
    requires Granular(p, size)
    ensures c.sl < Sllen(p)
  {
    MantissaRange(p, size);
    var m := Mantissa(p, size) + (if Inexact(p, size) then 1 else 0);
    if m == 2 * Sllen(p) then Class(FlOf(p, size) + 1, 0)
    else Class(FlOf(p, size), m - Sllen(p))
  }

  lemma ShrSmaller(x: nat, k: nat)
    ensures Shr(x, k) <= x
  {
    DivGalois(x + 1, x, Pow2(k));
    if x < Shr(x, k) {
      MulLe(1, Pow2(k), x + 1);
    }
  }

  // ----- the source's computation meets the description -----

  lemma GranularLog(p: Params, size: nat)
    requires Granular(p, size)
    ensures size > 0 && p.gl <= Log2(size) < p.w
  {
    Log2Below(size, p.w);
    if Log2(size) < p.gl {
      Pow2Mono(Log2(size), p.gl);
    }
  }

  lemma MantissaRange(p: Params, size: nat)
    requires size > 0
    ensures Sllen(p) <= Mantissa(p, size) < 2 * Sllen(p)
  {
    QuotientRange(size, Pow2(Log2(size)), Sllen(p));
  }

  lemma QuotientRange(x: nat, t: nat, s: nat)
    requires t <= x < 2 * t && s > 0
    ensures s <= x * s / t < 2 * s
  {
    MulLe(t, x, s);
    Commute(s, t);
    DivGalois(s, x * s, t);
    MulLt(x, 2 * t, s);
    Swap(2, t, s);
    DivGalois(2 * s, x * s, t);
  }

  /** The rotation by a possibly negative amount leaves the mantissa in the low digits and the rest above. */
  lemma RotatedIs(p: Params, size: nat)
    requires Granular(p, size)
    ensures Rotated(p, size) % Pow2(p.sli + 1) == Mantissa(p, size)
    ensures Rotated(p, size) >= Pow2(p.sli + 1) <==> Inexact(p, size)
  {
    hide Rotated, Mantissa, Inexact, Granular, Log2, Pow2;
    GranularLog(p, size);
    var k := Log2(size);
    if k >= p.sli {
      RotatedRight(p, size, k - p.sli);
    } else {
      RotatedLeft(p, size, p.sli - k);
    }
  }

  lemma RotatedRight(p: Params, size: nat, d: nat)
    requires Granular(p, size) && Log2(size) == d + p.sli
    ensures Rotated(p, size) % Pow2(p.sli + 1) == Mantissa(p, size)
    ensures Rotated(p, size) >= Pow2(p.sli + 1) <==> Inexact(p, size)
  {
    hide Rotated, Mantissa, Inexact, Granular, Log2;
    GranularLog(p, size);
    var q, r := size / Pow2(d), size % Pow2(d);
    var e := p.w - d - (p.sli + 1);
    RotatedValue(p, size);
    MantissaRange(p, size);
    MantissaRight(p, size, d);
    Pow2Add(e, p.sli + 1);
    LowPart(q, r, Pow2(e), Pow2(p.sli + 1));
  }

  lemma MantissaRight(p: Params, size: nat, d: nat)
    requires size > 0 && Log2(size) == d + p.sli
    ensures Mantissa(p, size) == size / Pow2(d)
    ensures Inexact(p, size) <==> size % Pow2(d) != 0
  {
    hide Pow2, Log2;
    Pow2Add(d, p.sli);
    DivScale(size, Pow2(d), Sllen(p));
  }

  lemma RotatedLeft(p: Params, size: nat, e: nat)
    requires Granular(p, size) && Log2(size) + e == p.sli && e > 0
    ensures Rotated(p, size) == Mantissa(p, size) < Pow2(p.sli + 1)
    ensures Rotated(p, size) % Pow2(p.sli + 1) == Mantissa(p, size)
    ensures !Inexact(p, size)
  {
    hide Rotated, Mantissa, Inexact, Granular, Log2;
    GranularLog(p, size);
    Pow2Mono(Log2(size) + 1, p.w - e);
    DivSmall(size, Pow2(p.w - e));
    RotatedValue(p, size);
    MantissaLeft(p, size, e);
    MantissaRange(p, size);
    DivSmall(Mantissa(p, size), Pow2(p.sli + 1));
  }

  lemma MantissaLeft(p: Params, size: nat, e: nat)
    requires size > 0 && Log2(size) + e == p.sli
    ensures Mantissa(p, size) == size * Pow2(e) && !Inexact(p, size)
  {
    hide Pow2, Log2;
    var k := Log2(size);
    Pow2Add(e, k);
    MulAssoc(size, Pow2(e), Pow2(k));
    MultipleIs(size * Pow2(e), Pow2(k));
  }

  lemma RotatedValue(p: Params, size: nat)
    requires Granular(p, size)
    ensures var k := Log2(size);
            var n := if p.sli <= k then k - p.sli else p.w - (p.sli - k);
            && 0 <= n < p.w
            && Rotated(p, size) == size / Pow2(n) + size % Pow2(n) * Pow2(p.w - n)
  {
    hide Log2, Pow2, Granular, WrappingSub32;
    GranularLog(p, size);
    WrappedShift(p, Log2(size));
  }

  /** The rotation amount is taken modulo the word, whichever its sign. */
  lemma WrappedShift(p: Params, k: nat)
    requires k < p.w
    ensures WrappingSub32(k, p.sli) % p.w == if p.sli <= k then k - p.sli else p.w - (p.sli - k)
  {
    var m := Pow2(32 - (p.gl + 1));
    Pow2Is32();
    Pow2Mono(p.gl + 1, 32);
    Pow2Add(32 - (p.gl + 1), p.gl + 1);
    WrapModulo(k, p.sli, p.w, m);
  }

  lemma WrapModulo(k: nat, n: nat, w: nat, m: nat)
    requires m * w == 0x1_0000_0000 && k < w && n < w
    ensures WrappingSub32(k, n) % w == if n <= k then k - n else w - (n - k)
  {
    MulLe(1, m, w);
    if n <= k {
      DivSmall(k - n, w);
    } else {
      Distribute(m, 1, w);
      Distribute(m - 1, 1, w);
      DivUnique(0x1_0000_0000 - (n - k), w, m - 1);
    }
  }

  lemma Pow2Is32()
    ensures Pow2(32) == 0x1_0000_0000
  {
    assert Pow2(8) == 256;
    Pow2Add(8, 8);
    Pow2Add(16, 16);
  }

  lemma MapFloorIs(p: Params, size: nat)
    requires Granular(p, size)
    ensures MapFloor(p, size) == if Floor(p, size).fl < p.fllen then Some(Floor(p, size)) else None
  {
    hide Rotated, Mantissa, Inexact, And, Granular, Log2, FlOf, Pow2, Sllen;
    GranularLog(p, size);
    RotatedIs(p, size);
    MantissaRange(p, size);
    LowDigits(p, Rotated(p, size), Mantissa(p, size));
  }

  lemma LowDigits(p: Params, r: nat, m: nat)
    requires r % Pow2(p.sli + 1) == m && Sllen(p) <= m < 2 * Sllen(p)
    ensures And(r, Sllen(p) - 1) == m - Sllen(p)
  {
    hide And;
    AndOnes(r, p.sli);
    LowHalf(r, Sllen(p), m);
  }

  lemma LowHalf(r: nat, s: nat, m: nat)
    requires 0 < s <= m < 2 * s && r % (2 * s) == m
    ensures r % s == m - s
  {
    DivBounds(r, 2 * s);
    var q := r / (2 * s);
    Distribute(2 * q, 1, s);
    MulAssoc(2, q, s);
    MulAssoc(q, 2, s);
    Commute(q, 2);
    DivUnique(r, s, 2 * q + 1);
  }

  /** Rounding up carries into the first level. */
  lemma Carry(p: Params, sl: nat)
    requires sl <= Sllen(p)
    ensures Shr(sl, p.sli) == if sl == Sllen(p) then 1 else 0
    ensures And(sl, Sllen(p) - 1) == if sl == Sllen(p) then 0 else sl
  {
    AndOnes(sl, p.sli);
    DivUnique(sl, Sllen(p), if sl == Sllen(p) then 1 else 0);
  }

  lemma MapCeilIs(p: Params, size: nat)
    requires Granular(p, size)
    ensures MapCeil(p, size) == if Ceil(p, size).fl < p.fllen then Some(Ceil(p, size)) else None
  {
    hide Rotated, Mantissa, Inexact, And, Granular, Log2, FlOf, Shr, Pow2, Sllen;
    GranularLog(p, size);
    RotatedIs(p, size);
    MantissaRange(p, size);
    LowDigits(p, Rotated(p, size), Mantissa(p, size));
    var s := Sllen(p);
    var sl1 := Mantissa(p, size) - s + (if Inexact(p, size) then 1 else 0);
    Carry(p, sl1);
  }

  // ----- the lists partition the sizes -----

  lemma BoundsOfLevel(p: Params, c: Class)
    requires c.sl < Sllen(p)
    ensures Pow2(c.fl + p.gl) * Sllen(p) <= LowerBound(p, c) < Pow2(c.fl + p.gl + 1) * Sllen(p)
  {
    LevelBounds(Pow2(c.fl + p.gl), Sllen(p), c.sl);
  }

  lemma LevelBounds(t: nat, s: nat, i: nat)
    requires i < s && t > 0
    ensures t * s <= t * (s + i) < 2 * t * s
  {
    Distribute(s, i, t);
    MulLe(0, i, t);
    MulLt(i, s, t);
    MulAssoc(2, t, s);
  }

  lemma LevelsApart(p: Params, i: nat, j: nat)
    requires i <= j
    ensures Pow2(i) * Sllen(p) <= Pow2(j) * Sllen(p)
  {
    Pow2Mono(i, j);
    MulLe(Pow2(i), Pow2(j), Sllen(p));
  }

  lemma MantissaIs(p: Params, x: nat)
    requires x > 0
    ensures var t, m := Pow2(Log2(x)), Mantissa(p, x);
            && m * t <= x * Sllen(p) < m * t + t
            && (Inexact(p, x) <==> m * t != x * Sllen(p))
  {
    var t, m := Pow2(Log2(x)), Mantissa(p, x);
    DivBounds(x * Sllen(p), t);
    Distribute(m, 1, t);
  }

  lemma FloorBound(p: Params, x: nat)
    requires Granular(p, x)
    ensures LowerBound(p, Floor(p, x)) == Mantissa(p, x) * Pow2(Log2(x))
  {
    hide Mantissa, Granular, Log2, Pow2;
    GranularLog(p, x);
    MantissaRange(p, x);
    assert Sllen(p) + Floor(p, x).sl == Mantissa(p, x);
    Commute(Mantissa(p, x), Pow2(Log2(x)));
  }

  /** The digits of a size, and its place between the lower bounds of its list and the next. */
  lemma FloorIs(p: Params, x: nat)
    requires Granular(p, x)
    ensures var c, t := Floor(p, x), Pow2(Floor(p, x).fl + p.gl);
            && t <= x < 2 * t
            && LowerBound(p, c) <= x * Sllen(p) < LowerBound(p, c) + t
  {
    hide Mantissa, Inexact, LowerBound, Granular, Floor, Log2, Pow2;
    GranularLog(p, x);
    MantissaIs(p, x);
    FloorBound(p, x);
  }

  /** A size maps to list `c` or a later one exactly when it reaches the lower bound of `c`. */
  lemma FloorGalois(p: Params, x: nat, c: Class)
    requires Granular(p, x) && c.sl < Sllen(p)
    ensures Leq(c, Floor(p, x)) <==> LowerBound(p, c) <= x * Sllen(p)
  {
    hide LowerBound, Floor, Granular, Pow2, Log2;
    var d := Floor(p, x);
    FloorIs(p, x);
    if Leq(c, d) {
      LowerBoundMono(p, c, d);
    } else {
      LowerBoundStep(p, d, c);
    }
  }

  lemma LowerBoundMono(p: Params, c: Class, d: Class)
    requires c.sl < Sllen(p) && Leq(c, d)
    ensures LowerBound(p, c) <= LowerBound(p, d)
  {
    hide LowerBound, Pow2;
    if c != d {
      LowerBoundStep(p, c, d);
    }
  }

  /** Consecutive lower bounds of one level are `Pow2(fl + gl)` apart. */
  lemma LowerBoundStep(p: Params, c: Class, d: Class)
    requires c.sl < Sllen(p) && !Leq(d, c)
    ensures LowerBound(p, c) + Pow2(c.fl + p.gl) <= LowerBound(p, d)
  {
    hide Pow2;
    var t, s := Pow2(c.fl + p.gl), Sllen(p);
    if c.fl < d.fl {
      Pow2Mono(c.fl + p.gl, d.fl + p.gl);
      StepAcross(t, Pow2(d.fl + p.gl), s, c.sl, d.sl);
    } else {
      Distribute(s + c.sl, 1, t);
      MulLe(s + c.sl + 1, s + d.sl, t);
      Commute(t, s + d.sl);
    }
  }

  lemma StepAcross(t: nat, u: nat, s: nat, i: nat, j: nat)
    requires 2 * t <= u && i < s
    ensures t * (s + i) + t <= u * (s + j)
  {
    Distribute(s + i, 1, t);
    MulLe(s + i + 1, 2 * s, t);
    Swap(2, s, t);
    MulLe(2 * t, u, s);
    Distribute(s, j, u);
    MulLe(0, j, u);
  }

  /** A size fits every block of list `c` exactly when `c` is at or after the list `map_ceil` names. */
  lemma CeilGalois(p: Params, x: nat, c: Class)
    requires Granular(p, x) && c.sl < Sllen(p)
    ensures Leq(Ceil(p, x), c) <==> x * Sllen(p) <= LowerBound(p, c)
  {
    hide LowerBound, Floor, Ceil, Granular, Pow2, Log2, Inexact;
    var f, d := Floor(p, x), Ceil(p, x);
    FloorIs(p, x);
    CeilIs(p, x);
    if Leq(d, c) {
      LowerBoundMono(p, d, c);
    } else if Inexact(p, x) {
      assert Leq(c, f);
      LowerBoundMono(p, c, f);
    } else {
      LowerBoundStep(p, c, d);
    }
  }

  /** `map_ceil` names the list of the size itself or the very next one. */
  lemma CeilIs(p: Params, x: nat)
    requires Granular(p, x)
    ensures var f, d := Floor(p, x), Ceil(p, x);
            && (Inexact(p, x) <==> x * Sllen(p) != LowerBound(p, f))
            && (Inexact(p, x) ==> d == Next(p, f))
            && (!Inexact(p, x) ==> d == f)
            && (Inexact(p, x) ==> LowerBound(p, d) == LowerBound(p, f) + Pow2(f.fl + p.gl))
  {
    hide Mantissa, Inexact, LowerBound, Granular, Log2, Pow2;
    GranularLog(p, x);
    MantissaRange(p, x);
    MantissaIs(p, x);
    FloorBound(p, x);
    NextLowerBound(p, Floor(p, x));
  }

  /** The list after `c`. */
  ghost function Next(p: Params, c: Class): Class {
    if c.sl + 1 == Sllen(p) then Class(c.fl + 1, 0) else Class(c.fl, c.sl + 1)
  }

  lemma NextLowerBound(p: Params, c: Class)
    requires c.sl < Sllen(p)
    ensures LowerBound(p, Next(p, c)) == LowerBound(p, c) + Pow2(c.fl + p.gl)
  {
    var t, s := Pow2(c.fl + p.gl), Sllen(p);
    assert Pow2(c.fl + 1 + p.gl) == 2 * t;
    Distribute(s + c.sl, 1, t);
    Swap(2, t, s);
    Commute(t, 2 * s);
  }

  // ----- consequences -----

  lemma LeqAntisymmetric(c: Class, d: Class)
    requires Leq(c, d) && Leq(d, c)
    ensures c == d
  {
  }

  /** Every block of every list at or after `map_ceil(s)` is large enough for `s`. */
  lemma SearchIsSound(p: Params, s: nat, x: nat)
    requires Granular(p, s) && Granular(p, x)
    requires MapCeil(p, s).Some? && MapFloor(p, x).Some?
    requires Leq(MapCeil(p, s).value, MapFloor(p, x).value)
    ensures s <= x
  {
    hide MapCeil, MapFloor, Floor, Ceil, LowerBound, Granular;
    MapCeilIs(p, s);
    MapFloorIs(p, x);
    FloorGalois(p, x, Ceil(p, s));
    CeilGalois(p, s, Ceil(p, s));
    MulCancelLe(s, x, Sllen(p));
  }

  lemma FloorMonotone(p: Params, x: nat, y: nat)
    requires Granular(p, x) && Granular(p, y) && x <= y
    ensures Leq(Floor(p, x), Floor(p, y))
  {
    hide Floor, LowerBound, Granular;
    FloorGalois(p, x, Floor(p, x));
    MulLe(x, y, Sllen(p));
    FloorGalois(p, y, Floor(p, x));
  }

  /** The sizes that have a list are those below `GRANULARITY << FLLEN`. */
  lemma HasList(p: Params, x: nat)
    requires Granular(p, x)
    ensures MapFloor(p, x).Some? <==> x < Pow2(p.gl + p.fllen)
    ensures MapFloor(p, x).Some? ==> ValidClass(p, MapFloor(p, x).value)
  {
    hide MapFloor, Floor, Granular, Log2;
    MapFloorIs(p, x);
    var k := Log2(x);
    if k < p.gl + p.fllen {
      Pow2Mono(k + 1, p.gl + p.fllen);
    } else {
      Pow2Mono(p.gl + p.fllen, k);
    }
  }

  /** The number of first levels whose lists hold a size that fits a word. */
  ghost function Levels(p: Params): (r: nat)
    ensures 0 < r <= p.fllen && r + p.gl <= p.w
  {
    WidthExceeds(p);
    if p.fllen < p.w - p.gl then p.fllen else p.w - p.gl
  }

  /** The greatest input is the lower bound of the last representable list, rounded down. */
  lemma MaxInputIs(p: Params)
    ensures MaxMapCeilAndUnmapInput(p) == LowerBound(p, Class(Levels(p) - 1, Sllen(p) - 1)) / Sllen(p)
  {
    hide MaxMapCeilAndUnmapInput, Levels, Pow2;
    MaxInputShift(p);
    Pow2Add(p.w - p.sli - 1, p.sli);
    Pow2Add(Levels(p) - 1 + p.gl, p.w - p.gl - Levels(p));
    SameQuotient(Pow2(p.w - p.sli - 1), Sllen(p), Pow2(Levels(p) - 1 + p.gl), Pow2(p.w - p.gl - Levels(p)),
                 2 * Sllen(p) - 1);
  }

  lemma SameQuotient(u: nat, s: nat, t: nat, d: nat, n: nat)
    requires s > 0 && d > 0 && u * s == t * d
    ensures u * n / d == t * n / s
  {
    Swap(u, n, s);
    Swap(t, n, d);
    DivCross(u * n, d, t * n, s);
  }

  lemma Swap(a: int, b: int, c: int)
    ensures a * b * c == a * c * b
  {
  }

  lemma MaxInputShift(p: Params)
    ensures MaxMapCeilAndUnmapInput(p)
            == Pow2(p.w - p.sli - 1) * (2 * Sllen(p) - 1) / Pow2(p.w - p.gl - Levels(p))
  {
    WidthExceeds(p);
    var s, u := Sllen(p), Pow2(p.w - p.sli - 1);
    Pow2Add(p.w - p.sli - 1, p.sli + 1);
    Distribute(u, 1, 2 * s);
    DivUnique(Top(p) - 1, 2 * s, u - 1);
    Distribute(2 * s, 1, u);
    Commute(u, 2 * s);
    Commute(u, 2 * s - 1);
    MultipleIs(u * (2 * s - 1), 1);
  }

  /** The input is rejected exactly when no list, or only one whose minimum does not fit a word, is left. */
  lemma UnmapNone(p: Params, size: nat)
    requires Granular(p, size)
    ensures MapCeilAndUnmap(p, size).None? <==> Ceil(p, size).fl >= Levels(p)
    ensures MapCeilAndUnmap(p, size).None? <==>
            MapCeil(p, size).None? || LowerBound(p, MapCeil(p, size).value) >= Top(p) * Sllen(p)
  {
    hide Rotated, Mantissa, Inexact, And, MaxMapCeilAndUnmapInput, LowerBound, MapCeil, Ceil, Granular, Log2, Pow2,
      FlOf, Sllen, Top, Not;
    var s, f := Sllen(p), Levels(p);
    var last := Class(f - 1, s - 1);
    MaxInputIs(p);
    DivGalois(size, LowerBound(p, last), s);
    CeilGalois(p, size, last);
    MapCeilIs(p, size);
    FitsWord(p, Ceil(p, size));
  }

  /** The minimum of a list fits a word unless its level is too high. */
  lemma FitsWord(p: Params, c: Class)
    requires c.sl < Sllen(p)
    ensures LowerBound(p, c) >= Top(p) * Sllen(p) <==> c.fl + p.gl >= p.w
  {
    hide LowerBound, Sllen, Pow2;
    BoundsOfLevel(p, c);
    if c.fl + p.gl < p.w {
      LevelsApart(p, c.fl + p.gl + 1, p.w);
    } else {
      LevelsApart(p, p.w, c.fl + p.gl);
    }
  }

  /** The result is the lower bound of the list `map_ceil` names. */
  lemma UnmapIsLowerBound(p: Params, size: nat)
    requires Granular(p, size) && MapCeilAndUnmap(p, size).Some?
    ensures var m := MapCeilAndUnmap(p, size).value;
            size <= m && Granular(p, m) && m * Sllen(p) == LowerBound(p, Ceil(p, size))
  {
    hide MapCeilAndUnmap, MapCeil, Ceil, LowerBound, Log2, RoundUp, Levels;
    var s, m, c := Sllen(p), MapCeilAndUnmap(p, size).value, Ceil(p, size);
    UnmapRounds(p, size);
    UnmapScaled(p, size);
    UnmapNone(p, size);
    BoundsOfLevel(p, c);
    LevelsApart(p, c.fl + p.gl + 1, p.w);
    if Top(p) <= m {
      MulLe(Top(p), m, s);
    }
    GranularLog(p, size);
  }

  /** The digits below the mantissa are rounded up. */
  lemma UnmapRounds(p: Params, size: nat)
    requires Granular(p, size) && MapCeilAndUnmap(p, size).Some?
    ensures var m, k := MapCeilAndUnmap(p, size).value, Log2(size);
            && size <= m && m % G(p) == 0
            && m == if k < p.sli then size else RoundUp(size, Pow2(k - p.sli))
  {
    hide Log2, Pow2, RoundUp, Granular, MapCeilAndUnmap, G;
    GranularMultiple(p, size);
    GranularLog(p, size);
    UnmapMask(p, size);
    var k := Log2(size);
    if p.sli <= k {
      RoundUpProps(size, Pow2(k - p.sli));
      RoundUpGranular(p, size, k - p.sli);
    }
  }

  lemma UnmapMask(p: Params, size: nat)
    requires Granular(p, size) && MapCeilAndUnmap(p, size).Some?
    ensures var m, k := MapCeilAndUnmap(p, size).value, Log2(size);
            m == if k < p.sli then size else RoundUp(size, Pow2(k - p.sli))
  {
    hide Log2, Pow2, Not, And, RoundDown, MaxMapCeilAndUnmapInput, Granular;
    GranularLog(p, size);
    var k := Log2(size);
    if p.sli <= k {
      NoOverflow(p, size, k - p.sli);
      AndNotOnes(size + (Pow2(k - p.sli) - 1), k - p.sli, p.w);
    }
  }

  lemma GranularMultiple(p: Params, size: nat)
    requires Granular(p, size)
    ensures size % G(p) == 0
  {
  }

  lemma RoundUpGranular(p: Params, size: nat, d: nat)
    requires size % G(p) == 0
    ensures RoundUp(size, Pow2(d)) % G(p) == 0
  {
    RoundUpProps(size, Pow2(d));
    if d >= p.gl {
      MultipleOfSmaller(RoundUp(size, Pow2(d)), p.gl, d);
    } else {
      MultipleOfSmaller(size, d, p.gl);
      RoundUpFix(size, Pow2(d));
    }
  }

  lemma UnmapScaled(p: Params, size: nat)
    requires Granular(p, size) && MapCeilAndUnmap(p, size).Some?
    ensures MapCeilAndUnmap(p, size).value * Sllen(p) == LowerBound(p, Ceil(p, size))
  {
    hide MapCeilAndUnmap, Floor, Ceil, Mantissa, Inexact, LowerBound, Granular, Log2, Pow2, RoundUp, Sllen;
    GranularLog(p, size);
    var k, s, f := Log2(size), Sllen(p), Floor(p, size);
    UnmapRounds(p, size);
    CeilIs(p, size);
    if k < p.sli {
      MantissaLeft(p, size, p.sli - k);
    } else {
      var g := Pow2(k - p.sli);
      MantissaRight(p, size, k - p.sli);
      FloorBound(p, size);
      Pow2AddSllen(p, k - p.sli);
      RoundUpIs(size, g);
      ScaledRounding(size / g, if size % g == 0 then 0 else 1, g, s);
    }
  }

  lemma Pow2AddSllen(p: Params, d: nat)
    ensures Pow2(d + p.sli) == Pow2(d) * Sllen(p)
  {
    Pow2Add(d, p.sli);
  }

  lemma ScaledRounding(q: nat, b: nat, g: nat, s: nat)
    ensures (q + b) * g * s == q * (g * s) + b * (g * s)
  {
    MulAssoc(q + b, g, s);
    Distribute(q, b, g * s);
  }

  /** Rounding up an admitted size does not overflow the word. */
  lemma NoOverflow(p: Params, size: nat, d: nat)
    requires Granular(p, size) && Log2(size) == d + p.sli && size <= MaxMapCeilAndUnmapInput(p)
    ensures size + (Pow2(d) - 1) < Top(p)
  {
    hide MaxMapCeilAndUnmapInput, Granular, Log2, Levels;
    var s, f := Sllen(p), Levels(p);
    var t, g := Pow2(f - 1 + p.gl), Pow2(d);
    GranularLog(p, size);
    LastBound(p, size);
    Pow2AddSllen(p, d);
    assert Pow2(f + p.gl) == 2 * t;
    // the top digit of `size` is at most that of the last list
    assert d + p.sli <= f - 1 + p.gl by {
      if f + p.gl <= d + p.sli {
        Pow2Mono(f + p.gl, d + p.sli);
        MulLe(2 * t, size, s);
      }
    }
    Pow2Mono(d + p.sli, f - 1 + p.gl);
    ScaledBound(size, g, s, t);
    Pow2Mono(f + p.gl, p.w);
  }

  lemma ScaledBound(x: nat, g: nat, s: nat, t: nat)
    requires s > 0 && g * s <= t && x * s + t <= 2 * t * s
    ensures x + g <= 2 * t
  {
    Distribute(x, g, s);
    MulCancelLe(x + g, 2 * t, s);
  }

  lemma LastBound(p: Params, size: nat)
    requires size <= MaxMapCeilAndUnmapInput(p)
    ensures var t, s := Pow2(Levels(p) - 1 + p.gl), Sllen(p);
            size * s + t <= 2 * t * s
  {
    hide MaxMapCeilAndUnmapInput, Levels, Sllen, Pow2;
    MaxInputIs(p);
    var t, s := Pow2(Levels(p) - 1 + p.gl), Sllen(p);
    Distribute(2 * s, 1, t);
    MulAssoc(2, t, s);
    MulAssoc(t, 2, s);
    Commute(t, 2);
    var last := LowerBound(p, Class(Levels(p) - 1, s - 1));
    assert last + t == 2 * t * s;
    DivGalois(size, last, s);
  }

  /**
   `map_ceil_and_unmap` returns the least size that both mappings send to the list `map_ceil(size)`, and
   the sizes stored at or after that list are exactly those not below it.
   */
  lemma UnmapIsLeast(p: Params, size: nat)
    requires Granular(p, size) && MapCeilAndUnmap(p, size).Some?
    ensures MapCeil(p, size).Some?
    ensures var m, c := MapCeilAndUnmap(p, size).value, MapCeil(p, size).value;
            && size <= m && Granular(p, m)
            && MapFloor(p, m) == MapCeil(p, m) == Some(c)
            && (forall x: nat :: Granular(p, x) && size <= x && MapFloor(p, x) == Some(c) ==> m <= x)
            && (forall x: nat :: Granular(p, x) && MapFloor(p, x).Some? ==>
                  (Leq(c, MapFloor(p, x).value) <==> m <= x))
  {
    hide MapCeilAndUnmap, MapCeil, MapFloor, Floor, Ceil, LowerBound, Granular, Levels, Top;
    var m, c, s := MapCeilAndUnmap(p, size).value, Ceil(p, size), Sllen(p);
    UnmapIsLowerBound(p, size);
    UnmapNone(p, size);
    MapCeilIs(p, size);
    MapCeilIs(p, m);
    MapFloorIs(p, m);
    FloorGalois(p, m, c);
    CeilGalois(p, m, c);
    assert Leq(Floor(p, m), c) by {
      FloorGalois(p, m, Floor(p, m));
      FloorAbove(p, m, c);
    }
    assert Leq(c, Ceil(p, m)) by {
      MulLe(size, m, s);
      CeilGalois(p, m, Ceil(p, m));
      CeilGalois(p, size, Ceil(p, m));
    }
    LeqAntisymmetric(Floor(p, m), c);
    LeqAntisymmetric(Ceil(p, m), c);
    forall x: nat | Granular(p, x) && MapFloor(p, x).Some?
      ensures Leq(c, MapFloor(p, x).value) <==> m <= x
    {
      MapFloorIs(p, x);
      FloorGalois(p, x, c);
      if m <= x {
        MulLe(m, x, s);
      } else {
        MulLt(x, m, s);
      }
    }
  }

  /** A size that equals the lower bound of `c` maps to `c` at most. */
  lemma FloorAbove(p: Params, m: nat, c: Class)
    requires Granular(p, m) && c.sl < Sllen(p) && m * Sllen(p) == LowerBound(p, c)
    ensures Leq(Floor(p, m), c)
  {
    hide Floor, LowerBound, Granular, Pow2;
    var d := Floor(p, m);
    FloorGalois(p, m, d);
    if !Leq(d, c) {
      LowerBoundStep(p, c, d);
    }
  }

  /** Rounding up to a list wastes less than one part in `SLLEN`. */
  lemma UnmapIsTight(p: Params, size: nat)
    requires Granular(p, size) && MapCeilAndUnmap(p, size).Some?
    ensures MapCeilAndUnmap(p, size).value <= size + size / Sllen(p)
    ensures size / Sllen(p) > 0 ==> MapCeilAndUnmap(p, size).value < size + size / Sllen(p)
  {
    hide MapCeilAndUnmap, Granular, RoundUp, Log2, Pow2;
    GranularLog(p, size);
    var k, s := Log2(size), Sllen(p);
    UnmapRounds(p, size);
    if p.sli <= k {
      var g := Pow2(k - p.sli);
      RoundUpProps(size, g);
      Pow2AddSllen(p, k - p.sli);
      DivGalois(g, size, s);
    } else {
      DivGalois(0, size, s);
    }
  }
}
