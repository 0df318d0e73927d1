/** Powers of two, floor logarithm and rounding: the arithmetic the allocator does with shifts and masks. */
module Arith {

  function Pow2(n: nat): (r: nat)
    ensures r > 0
  {
    if n == 0 then 1 else 2 * Pow2(n - 1)
  }

  lemma {:induction false} Pow2Add(a: nat, b: nat)
    ensures Pow2(a + b) == Pow2(a) * Pow2(b)
  {
    if b != 0 {
      Pow2Add(a, b - 1);
      assert Pow2(a) * Pow2(b) == Pow2(a) * (2 * Pow2(b - 1)) == 2 * (Pow2(a) * Pow2(b - 1));
    }
  }

  lemma {:induction false} Pow2Mono(a: nat, b: nat)
    requires a <= b
    ensures Pow2(a) <= Pow2(b)
    ensures a < b ==> 2 * Pow2(a) <= Pow2(b)
    decreases b - a
  {
    if a < b {
      Pow2Mono(a + 1, b);
    }
  }

  lemma {:induction false} Pow2Exceeds(n: nat)
    ensures n < Pow2(n)
  {
    if n != 0 {
      Pow2Exceeds(n - 1);
    }
  }

  /** The position of the most significant one. */
  function Log2(x: nat): (k: nat)
    requires x > 0
    ensures Pow2(k) <= x < 2 * Pow2(k)
  {
    if x == 1 then 0 else 1 + Log2(x / 2)
  }

  lemma Log2Unique(x: nat, k: nat)
    requires Pow2(k) <= x < 2 * Pow2(k)
    ensures Log2(x) == k
  {
    hide Log2;
    var j := Log2(x);
    if j < k {
      Pow2Mono(j + 1, k);
    } else if k < j {
      Pow2Mono(k + 1, j);
    }
  }

  lemma Log2Below(x: nat, w: nat)
    requires 0 < x < Pow2(w)
    ensures Log2(x) < w
  {
    if w <= Log2(x) {
      Pow2Mono(w, Log2(x));
    }
  }

  function RoundDown(x: int, g: nat): int
    requires g > 0
  {
    x - x % g
  }

  function RoundUp(x: int, g: nat): int
    requires g > 0
  {
    RoundDown(x + (g - 1), g)
  }

  // ----- multiplication and division -----

  lemma MulAssoc(a: int, b: int, c: int)
    ensures a * (b * c) == a * b * c
  {
  }

  lemma MulLe(a: int, b: int, c: nat)
    requires a <= b
    ensures a * c <= b * c
  {
  }

  lemma MulLt(a: int, b: int, c: nat)
    requires a < b && c > 0
    ensures a * c < b * c
  {
  }

  lemma MulCancelLe(a: int, b: int, c: nat)
    requires c > 0 && a * c <= b * c
    ensures a <= b
  {
    if b < a {
      MulLt(b, a, c);
    }
  }

  lemma DivBounds(x: int, d: nat)
    requires d > 0
    ensures x / d * d <= x < (x / d + 1) * d
    ensures x == x / d * d + x % d
  {
  }

  lemma DivUnique(x: int, d: nat, q: int)
    requires d > 0 && q * d <= x < (q + 1) * d
    ensures x / d == q && x % d == x - q * d
  {
    DivBounds(x, d);
    if x / d < q {
      MulLe(x / d + 1, q, d);
    } else if q < x / d {
      MulLe(q + 1, x / d, d);
    }
  }

  lemma DivSmall(x: nat, d: nat)
    requires x < d
    ensures x / d == 0 && x % d == x
  {
  }

  lemma MultipleIs(q: int, g: nat)
    requires g > 0
    ensures q * g % g == 0 && q * g / g == q
  {
    assert (q + 1) * g == q * g + g;
    DivUnique(q * g, g, q);
  }

  /** `a <= x / d` exactly when `a * d <= x`. */
  lemma DivGalois(a: int, x: int, d: nat)
    requires d > 0
    ensures a <= x / d <==> a * d <= x
  {
    DivBounds(x, d);
    if a <= x / d {
      MulLe(a, x / d, d);
    } else {
      MulLe(x / d + 1, a, d);
    }
  }

  /** Equal fractions have equal integer parts. */
  lemma DivCross(a: nat, b: nat, c: nat, d: nat)
    requires b > 0 && d > 0 && a * d == c * b
    ensures a / b == c / d
  {
    var q := a / b;
    DivBounds(a, b);
    MulLe(q * b, a, d);
    MulLt(a, (q + 1) * b, d);
    assert q * d * b <= c * b by {
      assert q * b * d == q * d * b;
    }
    MulCancelLe(q * d, c, b);
    assert c * b < (q + 1) * d * b by {
      assert (q + 1) * b * d == (q + 1) * d * b;
    }
    if (q + 1) * d <= c {
      MulLe((q + 1) * d, c, b);
    }
    DivUnique(c, d, q);
  }

  /** Scaling dividend and divisor alike keeps the quotient and whether it is exact. */
  lemma DivScale(x: nat, g: nat, s: nat)
    requires g > 0 && s > 0
    ensures g * s > 0
    ensures x * s / (g * s) == x / g
    ensures x * s % (g * s) == 0 <==> x % g == 0
  {
    var q, r := x / g, x % g;
    DivBounds(x, g);
    assert x * s == q * (g * s) + r * s by {
      MulAssoc(q, g, s);
    }
    MulLt(r, g, s);
    assert (q + 1) * (g * s) == q * (g * s) + g * s;
    DivUnique(x * s, g * s, q);
  }

  /** Digits `q` below `b` with `r` placed above them. */
  lemma LowPart(q: nat, r: nat, a: nat, b: nat)
    requires q < b && a > 0
    ensures (q + r * (a * b)) % b == q
    ensures q + r * (a * b) >= b <==> r > 0
  {
    MulAssoc(r, a, b);
    assert (r * a + 1) * b == r * a * b + b;
    DivUnique(q + r * a * b, b, r * a);
    if r > 0 {
      MulLe(1, r * a, b);
    }
  }

  lemma Distribute(a: int, b: int, c: int)
    ensures (a + b) * c == a * c + b * c
    ensures (a - b) * c == a * c - b * c
    ensures c * (a + b) == c * a + c * b
    ensures c * (a - b) == c * a - c * b
  {
  }

  lemma Commute(a: int, b: int)
    ensures a * b == b * a
  {
  }

  /** Rounding up, as a multiple of the quotient. */
  lemma RoundUpIs(x: nat, g: nat)
    requires g > 0
    ensures RoundUp(x, g) == (x / g + (if x % g == 0 then 0 else 1)) * g
  {
    var n := x / g + (if x % g == 0 then 0 else 1);
    DivBounds(x, g);
    RoundUpProps(x, g);
    MultipleIs(n, g);
    Distribute(x / g, 1, g);
    RoundUpLeast(x, n * g, g);
    if RoundUp(x, g) < n * g {
      MultipleDiff(RoundUp(x, g), n * g, g);
    }
  }

  // ----- rounding -----

  lemma RoundDownProps(x: int, g: nat)
    requires g > 0
    ensures RoundDown(x, g) % g == 0
    ensures RoundDown(x, g) <= x < RoundDown(x, g) + g
    ensures 0 <= x ==> 0 <= RoundDown(x, g)
  {
    DivBounds(x, g);
    MultipleIs(x / g, g);
    if 0 <= x {
      DivGalois(0, x, g);
      MulLe(0, x / g, g);
    }
  }

  lemma RoundUpProps(x: int, g: nat)
    requires g > 0
    ensures RoundUp(x, g) % g == 0
    ensures x <= RoundUp(x, g) < x + g
  {
    RoundDownProps(x + (g - 1), g);
  }

  lemma MultipleDiff(a: int, b: int, g: nat)
    requires g > 0 && a % g == 0 && b % g == 0
    ensures (a - b) % g == 0 && (a + b) % g == 0
    ensures a < b ==> a + g <= b
  {
    DivBounds(a, g);
    DivBounds(b, g);
    var i, j := a / g, b / g;
    assert a == i * g && b == j * g;
    assert a - b == (i - j) * g && a + b == (i + j) * g;
    DivUnique(a - b, g, i - j);
    DivUnique(a + b, g, i + j);
    if a < b {
      if j <= i {
        MulLe(j, i, g);
      }
      MulLe(i + 1, j, g);
    }
  }

  /** The least multiple of `g` at or above `x` is below every other one. */
  lemma RoundUpLeast(x: int, y: int, g: nat)
    requires g > 0 && y % g == 0 && x <= y
    ensures RoundUp(x, g) <= y
  {
    RoundUpProps(x, g);
    if y < RoundUp(x, g) {
      MultipleDiff(y, RoundUp(x, g), g);
    }
  }

  lemma RoundDownGreatest(x: int, y: int, g: nat)
    requires g > 0 && y % g == 0 && y <= x
    ensures y <= RoundDown(x, g)
  {
    RoundDownProps(x, g);
    if RoundDown(x, g) < y {
      MultipleDiff(RoundDown(x, g), y, g);
    }
  }

  lemma RoundDownDrops(x: int, f: nat, g: nat)
    requires f < g && x % g == 0
    ensures RoundDown(x + f, g) == x
  {
    DivBounds(x, g);
    Distribute(x / g, 1, g);
    DivUnique(x + f, g, x / g);
  }

  lemma RoundUpMono(x: int, y: int, g: nat)
    requires g > 0 && x <= y
    ensures RoundUp(x, g) <= RoundUp(y, g)
  {
    RoundUpProps(y, g);
    RoundUpLeast(x, RoundUp(y, g), g);
  }

  lemma RoundUpFix(x: int, g: nat)
    requires g > 0 && x % g == 0
    ensures RoundUp(x, g) == x && RoundDown(x, g) == x
  {
    RoundUpProps(x, g);
    RoundUpLeast(x, x, g);
  }

  /** A multiple of a larger power of two is a multiple of a smaller one. */
  lemma MultipleOfSmaller(x: int, i: nat, j: nat)
    requires i <= j && x % Pow2(j) == 0
    ensures x % Pow2(i) == 0
  {
    DivBounds(x, Pow2(j));
    Pow2Add(j - i, i);
    var q, a, b := x / Pow2(j), Pow2(j - i), Pow2(i);
    MulAssoc(q, a, b);
    MultipleIs(q * a, b);
  }
}
