/** lib/arithmetic.c: 64-bit division from an instruction that divides 64 bits by
    32 and traps when the quotient does not fit.  Machine words are integers here,
    and every place where C arithmetic wraps is written out. */
module Arithmetic {
  import opened Bits

  const B31: nat := 0x8000_0000
  const B32: nat := 0x1_0000_0000

  // ------------------------------------------------------- facts of division

  lemma Monotone(a: int, b: int, c: nat)
    requires a <= b
    ensures a * c <= b * c
  {
  }

  lemma Swapped(a: int, b: int, c: int)
    ensures a * (b * c) == (a * c) * b
  {
  }

  lemma QuotientBounds(n: nat, d: nat)
    requires d > 0
    ensures 0 <= n / d && n / d * d <= n < (n / d + 1) * d
  {
  }

  /** A quotient is what its bounds say. */
  lemma QuotientIs(n: nat, d: nat, q: nat)
    requires d > 0 && q * d <= n < (q + 1) * d
    ensures n / d == q
  {
    var k := n / d;
    QuotientBounds(n, d);
    if k < q {
      Monotone(k + 1, q, d);
    } else if q < k {
      Monotone(q + 1, k, d);
    }
  }

  /** Dividing twice is dividing by the product. */
  lemma DivideTwice(n: nat, c: nat, d: nat)
    requires c > 0 && d > 0 && c * d > 0
    ensures n / c / d == n / (c * d)
  {
    var m := n / c;
    var q := m / d;
    QuotientBounds(n, c);
    QuotientBounds(m, d);
    Swapped(q, c, d);
    Monotone(q * d, m, c);
    Swapped(q + 1, c, d);
    Monotone(m + 1, (q + 1) * d, c);
    QuotientIs(n, c * d, q);
  }

  lemma QuotientBelow(n: nat, d: nat, b: nat)
    requires d > 0 && n < b * d
    ensures n / d < b
  {
    QuotientBounds(n, d);
    if n / d >= b { Monotone(b, n / d, d); }
  }

  lemma Pow2Small()
    ensures Pow2(0) == 1 && Pow2(1) == 2 && Pow2(2) == 4 && Pow2(4) == 16 && Pow2(8) == 256 && Pow2(16) == 0x1_0000
    ensures Pow2(31) == B31 && Pow2(32) == B32
  {
    assert Pow2(4) == 16;
    Pow2Add(4, 4);
    Pow2Add(8, 8);
    Pow2Add(16, 16);
    assert Pow2(32) == 2 * Pow2(31);
  }

  // -------------------------------------------------------------- the estimate

  // Below, `m` is the base 2^32, `a` the power of two that scales the divisor and
  // `b` the one that undoes it: a * b == m.

  /** The upper half of the divisor leaves room for what is shifted in. */
  lemma Room(d1: nat, m: nat, a: nat, b: nat)
    requires a * b == m && d1 * a < m
    ensures (d1 + 1) * a <= m
  {
    if d1 >= b {
      Monotone(b, d1, a);
    } else {
      Monotone(d1 + 1, b, a);
    }
  }

  lemma ScaledBelow(d: nat, d1: nat, m: nat, a: nat)
    requires d < (d1 + 1) * m && (d1 + 1) * a <= m && a > 0
    ensures d * a < m * m
  {
    var x := d1 + 1;
    Monotone(d + 1, x * m, a);
    assert (x * m) * a == (x * a) * m;
    Monotone(x * a, m, m);
    assert (d + 1) * a == d * a + a;
  }

  lemma ScaledAbove(d: nat, d1: nat, m: nat, a: nat)
    requires d1 * m <= d
    ensures (d1 * a) * m <= d * a
  {
    Monotone(d1 * m, d, a);
    assert (d1 * m) * a == (d1 * a) * m;
  }

  lemma QuotientAtLeast(n: nat, d: nat, q: nat)
    requires d > 0 && q * d <= n
    ensures q <= n / d
  {
    QuotientBounds(n, d);
    if n / d < q { Monotone(n / d + 1, q, d); }
  }

  /** Scaling does not overflow, and keeps the upper half. */
  lemma ScaledFits(d: nat, d1: nat, x: nat, m: nat, a: nat, b: nat)
    requires m > 0 && a * b == m && a > 0 && d1 * m <= d < (d1 + 1) * m && d1 * a < m && x == d * a
    ensures x < m * m && d1 * a <= x / m < m
  {
    Room(d1, m, a, b);
    ScaledBelow(d, d1, m, a);
    ScaledAbove(d, d1, m, a);
    QuotientBelow(x, m, m);
    QuotientAtLeast(x, m, d1 * a);
  }

  /** The coarse divisor c == v * b, with v the scaled divisor's upper half, is
      below d by less than b. */
  lemma CoarseBelow(d: nat, v: nat, m: nat, a: nat, b: nat)
    requires a * b == m && a > 0 && v * m <= d * a < (v + 1) * m
    ensures v * b <= d < (v + 1) * b
  {
    assert v * m == (v * b) * a;
    assert (v + 1) * m == ((v + 1) * b) * a;
    if d < v * b { Monotone(d + 1, v * b, a); }
    if d >= (v + 1) * b { Monotone((v + 1) * b, d, a); }
  }

  /** Dividing by the coarse divisor gives the quotient or one more. */
  lemma CoarseQuotient(n: nat, d: nat, c: nat, e: nat, k: nat)
    requires 0 < c && d == c + e && (k + 1) * e <= c && k * d <= n < (k + 1) * d
    ensures k <= n / c <= k + 1
  {
    Monotone(c, d, k);
    QuotientAtLeast(n, c, k);
    assert (k + 1) * d == (k + 1) * c + (k + 1) * e;
    assert (k + 2) * c == (k + 1) * c + c;
    QuotientBelow(n, c, k + 2);
  }

  /** The quotient is small when the divisor is large. */
  lemma QuotientSmall(n: nat, d: nat, k: nat, a: nat, b: nat)
    requires n < B64 && d >= B31 * b && k * d <= n && a * b == B32
    ensures k < 2 * a
  {
    if k >= 2 * a {
      Monotone(2 * a, k, d);
      Monotone(B31 * b, d, 2 * a);
    }
  }

  /** So it matters little how far the coarse divisor is off. */
  lemma ErrorSmall(c: nat, e: nat, k: nat, a: nat, b: nat)
    requires b > 0 && c >= B31 * b && e < b && k < 2 * a && a * b == B32 && (b == 2 || b >= 4)
    ensures (k + 1) * e <= c
  {
    Monotone(k + 1, 2 * a, e);
    Monotone(e, b - 1, 2 * a);
    assert (b - 1) * (2 * a) == 2 * (a * b) - 2 * a;
    assert b == 2 ==> a == B31;
  }

  lemma HalfBelow(n: nat, v: nat)
    requires n < B64 && v >= B31
    ensures n / 2 < B32 * v
  {
    Monotone(B31, v, B32);
  }

  /** The coarse quotient is the quotient or one more. */
  lemma CoarseEstimate(n: nat, d: nat, c: nat, k: nat, a: nat, b: nat)
    requires n < B64 && a > 0 && b > 0 && a * b == B32 && (b == 2 || b >= 4)
    requires 0 < B31 * b <= c <= d < c + b && k * d <= n < (k + 1) * d
    ensures k <= n / c <= k + 1
  {
    QuotientSmall(n, d, k, a, b);
    ErrorSmall(c, d - c, k, a, b);
    CoarseQuotient(n, d, c, d - c, k);
  }

  lemma DivideThrice(n: nat, v: nat, h: nat)
    requires v > 0 && h > 0 && v * (2 * h) > 0
    ensures n / 2 / v / h == n / (v * (2 * h))
  {
    DivideTwice(n, 2, v);
    assert (2 * v) * h == v * (2 * h);
    DivideTwice(n, 2 * v, h);
  }

  /** The estimate: halve, divide by the scaled divisor's upper half, shift down. */
  lemma Estimate(n: nat, d: nat, v: nat, h: nat, a: nat, b: nat, c: nat, k: nat)
    requires n < B64 && a > 0 && h > 0 && b == 2 * h && a * b == B32 && (b == 2 || b >= 4)
    requires v >= B31 && c == v * b && c <= d < c + b && k * d <= n < (k + 1) * d
    ensures n / 2 / v < B32 && k <= n / 2 / v / h <= k + 1
  {
    HalfBelow(n, v);
    QuotientBelow(n / 2, v, B32);
    Monotone(B31, v, b);
    CoarseEstimate(n, d, c, k, a, b);
    DivideThrice(n, v, h);
  }

  // -------------------------------------------------------- a 32-bit divisor

  lemma DigitBelow(r: nat, d: nat, n0: nat, m: nat)
    requires r < d && n0 < m
    ensures m * r + n0 < m * d
  {
    Monotone(r + 1, d, m);
    assert (r + 1) * m == m * r + m;
  }

  lemma Expand(n1: nat, t: nat, r: nat, d: nat, m: nat)
    requires n1 == t * d + r
    ensures n1 * m == (m * t) * d + m * r
  {
    assert (t * d + r) * m == (t * d) * m + r * m;
    assert (t * d) * m == (m * t) * d;
  }

  lemma AddDigits(x: nat, q: nat, hi: nat, d: nat)
    requires d > 0 && q * d <= x < (q + 1) * d
    ensures (x + hi * d) / d == q + hi
  {
    assert (q + hi) * d == q * d + hi * d;
    assert (q + hi + 1) * d == (q + 1) * d + hi * d;
    QuotientIs(x + hi * d, d, q + hi);
  }

  /** Two-digit division: the digit below the top never overflows. */
  lemma ShortDivision(n1: nat, n0: nat, t: nat, r: nat, d: nat, m: nat)
    requires n0 < m && n1 == t * d + r && r < d
    ensures (m * r + n0) / d < m && (m * r + n0) / d + m * t == (n1 * m + n0) / d
  {
    var x := m * r + n0;
    DigitBelow(r, d, n0, m);
    QuotientBelow(x, d, m);
    QuotientBounds(x, d);
    Expand(n1, t, r, d, m);
    AddDigits(x, x / d, m * t, d);
  }

  lemma DivMod(n: nat, d: nat)
    requires d > 0
    ensures 0 <= n / d <= n && 0 <= n % d < d && n == n / d * d + n % d
  {
    QuotientBounds(n, d);
    Monotone(1, d, n / d);
  }

  // ------------------------------------------------------------------ the code

  /** The DIVL instruction: it traps unless the quotient fits in 32 bits. */
  method Divl(n: nat, d: nat) returns (q: nat)
    requires n < B64 && 0 < d < B32 && n / d < B32
    ensures q == n / d
  {
    q := n / d;
  }

  /** Shifting left, without overflow. */
  function Shl(x: nat, n: nat): nat
    decreases n
  {
    if n == 0 then x else Shl(2 * x, n - 1)
  }

  lemma {:induction false} ShlPow2(x: nat, n: nat)
    ensures Shl(x, n) == x * Pow2(n)
    decreases n
  {
    if n > 0 { ShlPow2(2 * x, n - 1); }
  }

  lemma {:induction false} ShlMore(x: nat, n: nat, j: nat)
    ensures Shl(x, n + j) == Shl(Shl(x, n), j)
    decreases n
  {
    if n > 0 { ShlMore(2 * x, n - 1, j); }
  }

  /** One stage of nlz: `k` more zeros, that is a factor of `f`. */
  lemma NlzStage(x0: nat, n: nat, x: nat, k: nat, f: nat)
    requires Shl(x0, n) == x && (k, f) in {(16, 0x1_0000), (8, 0x100), (4, 0x10), (2, 4), (1, 2)}
    ensures Shl(x0, n + k) == x * f
  {
    Pow2Small();
    ShlMore(x0, n, k);
    ShlPow2(x, k);
  }

  /** The number of leading zero bits. */
  method Nlz(x0: nat) returns (n: nat)
    requires 0 < x0 < B32
    ensures n <= 31 && B31 <= Shl(x0, n) < B32
  {
    var x := x0;
    n := 0;
    if x <= 0x0000_FFFF {
      NlzStage(x0, n, x, 16, 0x1_0000);
      n := n + 16;
      x := x * 0x1_0000;
    }
    assert Shl(x0, n) == x && 0x0000_FFFF < x < 0x1_0000_0000;
    if x <= 0x00FF_FFFF {
      NlzStage(x0, n, x, 8, 0x100);
      n := n + 8;
      x := x * 0x100;
    }
    assert Shl(x0, n) == x && 0x00FF_FFFF < x < 0x1_0000_0000;
    if x <= 0x0FFF_FFFF {
      NlzStage(x0, n, x, 4, 0x10);
      n := n + 4;
      x := x * 0x10;
    }
    assert Shl(x0, n) == x && 0x0FFF_FFFF < x < 0x1_0000_0000;
    if x <= 0x3FFF_FFFF {
      NlzStage(x0, n, x, 2, 4);
      n := n + 2;
      x := x * 4;
    }
    assert Shl(x0, n) == x && 0x3FFF_FFFF < x < 0x1_0000_0000;
    if x <= 0x7FFF_FFFF {
      NlzStage(x0, n, x, 1, 2);
      n := n + 1;
    }
  }

  /** The correction: the estimate is right or one too large. */
  lemma Correction(n: nat, d: nat, k: nat, q: nat)
    requires d > 0 && k * d <= n < (k + 1) * d && k >= 1 && k <= q <= k + 1
    ensures 0 <= (q - 1) * d <= n && (n - (q - 1) * d < d <==> q == k + 1)
  {
    assert (k - 1) * d == k * d - d;
    Monotone(0, k - 1, d);
  }

  lemma QuotientPositive(n: nat, d: nat)
    requires 0 < d <= n
    ensures n / d >= 1
  {
    QuotientAtLeast(n, d, 1);
  }

  /** The scaled divisor `x` and its upper half `v`. */
  lemma ScaledDivisor(d: nat, x: nat, a: nat, b: nat)
    requires a > 0 && a * b == B32 && B31 <= d / B32 * a < B32 && x == d * a
    ensures x < B64 && B31 <= x / B32 < B32 && x / B32 * b <= d < x / B32 * b + b
  {
    var d1, v := d / B32, x / B32;
    QuotientBounds(d, B32);
    ScaledFits(d, d1, x, B32, a, b);
    QuotientBounds(x, B32);
    CoarseBelow(d, v, B32, a, b);
    assert (v + 1) * b == v * b + b;
  }

  lemma Scales(s: nat)
    requires s <= 31
    ensures var a, h, b := Pow2(s), Pow2(31 - s), Pow2(32 - s); a * b == B32 && b == 2 * h && (b == 2 || b >= 4)
  {
    Pow2Small();
    Pow2Add(s, 32 - s);
    assert s < 31 ==> Pow2(31 - s) == 2 * Pow2(30 - s);
  }

  /** What udiv64 computes when the divisor has an upper half. */
  lemma LongDivision(n: nat, d: nat, k: nat, x: nat, v: nat, a: nat, h: nat, b: nat)
    requires n < B64 && a > 0 && h > 0 && b == 2 * h && a * b == B32 && (b == 2 || b >= 4) && d > 0
    requires B31 <= d / B32 * a < B32 && x == d * a && v == x / B32 && k * d <= n < (k + 1) * d
    ensures x < B64 && B31 <= v < B32 && n / 2 / v < B32 && k <= n / 2 / v / h <= k + 1
  {
    ScaledDivisor(d, x, a, b);
    Estimate(n, d, v, h, a, b, v * b, k);
  }

  lemma SmallMod(x: nat, m: nat)
    requires x < m
    ensures x % m == x
  {
  }

  lemma LongResult(n: nat, d: nat, s: nat)
    requires B32 <= d <= n < B64 && s <= 31 && B31 <= Shl(d / B32, s) < B32
    ensures Shl(d, s) % B64 == Shl(d, s)
    ensures var v := Shl(d, s) / B32; 0 < v < B32 && n / 2 / v < B32 && n / d <= n / 2 / v / Pow2(31 - s) <= n / d + 1
  {
    Scales(s);
    ShlPow2(d / B32, s);
    ShlPow2(d, s);
    QuotientBounds(n, d);
    LongDivision(n, d, n / d, Shl(d, s), Shl(d, s) / B32, Pow2(s), Pow2(31 - s), Pow2(32 - s));
    SmallMod(Shl(d, s), B64);
  }

  /** udiv64's branch for a divisor below 2^32. */
  method ShortQuotient(n: nat, d: nat) returns (q: nat)
    requires n < B64 && 0 < d < B32
    ensures q == n / d
  {
    DivMod(n, B32);
    var n1, n0 := n / B32, n % B32;
    DivMod(n1, d);
    var t, r := n1 / d, n1 % d;
    ShortDivision(n1, n0, t, r, d, B32);
    DigitBelow(r, d, n0, B32);
    var low := Divl(B32 * r + n0, d);
    q := low + B32 * t;
  }

  /** Its branch for a larger one. */
  method LongQuotient(n: nat, d: nat) returns (q: nat)
    requires B32 <= d <= n < B64
    ensures q == n / d
  {
    var s := Nlz(d / B32);
    LongResult(n, d, s);
    var scaled := Shl(d, s) % B64;
    q := Divl(n / 2, scaled / B32);
    q := Corrected(n, d, q / Pow2(31 - s));
  }

  /** udiv64: the quotient, for every dividend and every nonzero divisor. */
  method Udiv64(n: nat, d: nat) returns (q: nat)
    requires n < B64 && 0 < d < B64
    ensures q == n / d
  {
    if d / B32 == 0 {
      q := ShortQuotient(n, d);
    } else if n < d {
      QuotientIs(n, d, 0);
      q := 0;
    } else {
      q := LongQuotient(n, d);
    }
  }

  /** The last line of udiv64. */
  method Corrected(n: nat, d: nat, q: nat) returns (r: nat)
    requires 0 < d <= n < B64 && n / d <= q <= n / d + 1
    ensures r == n / d
  {
    QuotientPositive(n, d);
    QuotientBounds(n, d);
    Correction(n, d, n / d, q);
    r := if (n - (q - 1) * d) % B64 < d then q - 1 else q;
  }

  // -------------------------------------------------------- remainders and signs

  lemma Remainder(n: nat, d: nat, q: nat)
    requires d > 0 && q == n / d
    ensures n - d * q == n % d && 0 <= n % d < d
  {
  }

  /** umod64 returns 32 bits: the remainder when it fits, its low half otherwise. */
  method Umod64(n: nat, d: nat) returns (r: nat)
    requires n < B64 && 0 < d < B64
    ensures r == n % d % B32 && (r == n % d <==> n % d < B32)
  {
    var q := Udiv64(n, d);
    Remainder(n, d, q);
    r := LowHalf(n - d * q);
  }

  /** Converting to an unsigned 32-bit word. */
  function LowHalf(x: nat): (r: nat)
    ensures r < B32 && (r == x <==> x < B32)
  {
    x % B32
  }

  /** Converting to a signed 64-bit and 32-bit word. */
  function Int64(x: int): int {
    var y := x % 0x1_0000_0000_0000_0000; if y < 0x8000_0000_0000_0000 then y else y - 0x1_0000_0000_0000_0000
  }

  function Int32(x: int): int {
    var y := x % 0x1_0000_0000; if y < 0x8000_0000 then y else y - 0x1_0000_0000
  }

  function Abs(x: int): nat {
    if x < 0 then -x else x
  }

  /** What is left of n after taking m away is smaller than d and has n's sign. */
  predicate Leaves(n: int, d: int, m: int) {
    Abs(n - m) < Abs(d) && (n >= 0 ==> n - m >= 0) && (n <= 0 ==> n - m <= 0)
  }

  /** `q` is n / d with the fraction dropped. */
  predicate Truncates(n: int, d: int, q: int) {
    Leaves(n, d, q * d)
  }

  /** A multiple of d that is smaller than d is zero. */
  lemma SmallMultiple(e: int, d: int)
    requires d != 0 && Abs(e * d) < Abs(d)
    ensures e == 0
  {
    if e >= 1 {
      Monotone(1, e, Abs(d));
    } else if e <= -1 {
      Monotone(1, -e, Abs(d));
    }
  }

  /** There is only one such quotient. */
  lemma TruncatesOnce(n: int, d: int, q: int, p: int)
    requires d != 0 && Truncates(n, d, q) && Truncates(n, d, p)
    ensures q == p
  {
    assert (q - p) * d == q * d - p * d;
    SmallMultiple(q - p, d);
  }

  /** The quotient with the sign sdiv64 gives it. */
  function Signed(n: int, d: int, a: nat): int {
    if (n < 0) == (d < 0) then a else 0 - a
  }

  lemma SignedProduct(n: int, d: int, a: nat)
    ensures Signed(n, d, a) * d == if n < 0 then -(a * Abs(d)) else a * Abs(d)
  {
  }

  /** Giving the quotient of the absolute values the sign it needs. */
  lemma SignedQuotient(n: int, d: int, a: nat)
    requires d != 0 && a * Abs(d) <= Abs(n) < a * Abs(d) + Abs(d)
    ensures Truncates(n, d, Signed(n, d, a))
  {
    SignedProduct(n, d, a);
  }

  lemma QuotientAtMost(n: nat, d: nat)
    requires d > 0
    ensures n / d <= n && (d > 1 && n > 0 ==> n / d < n)
  {
    QuotientBounds(n, d);
    Monotone(1, d, n / d);
    if d > 1 { Monotone(2, d, n / d); }
  }

  predicate InInt64(x: int) {
    -0x8000_0000_0000_0000 <= x < 0x8000_0000_0000_0000
  }

  lemma AbsQuotient(n: nat, d: nat, a: nat)
    requires d > 0 && a == n / d
    ensures a * d <= n < a * d + d && a <= n && (d > 1 && n > 0 ==> a < n)
  {
    QuotientBounds(n, d);
    QuotientAtMost(n, d);
    assert (a + 1) * d == a * d + d;
  }

  const INT64_MIN: int := -0x8000_0000_0000_0000

  /** The casts at the end of sdiv64 lose nothing but the one quotient 2^63. */
  lemma SignedCast(n: int, d: int, a: nat)
    requires InInt64(n) && a <= Abs(n) && (Abs(d) > 1 && Abs(n) > 0 ==> a < Abs(n))
    ensures var q := if (n < 0) == (d < 0) then Int64(a) else Int64(0 - Int64(a));
            && InInt64(q)
            && (a == 0x8000_0000_0000_0000 ==> n == INT64_MIN && q == n && -1 <= d <= 1)
            && (a < 0x8000_0000_0000_0000 || d >= 0 ==> q == Signed(n, d, a))
  {
  }

  lemma OnlyOverflow(a: nat)
    requires a * 1 <= 0x8000_0000_0000_0000 < a * 1 + 1
    ensures a == 0x8000_0000_0000_0000
  {
  }

  /** sdiv64 truncates toward zero, except that the one quotient that does not fit
      wraps. */
  method Sdiv64(n: int, d: int) returns (q: int)
    requires InInt64(n) && InInt64(d) && d != 0
    ensures InInt64(q)
    ensures !(n == INT64_MIN && d == -1) ==> Truncates(n, d, q)
    ensures n == INT64_MIN && d == -1 ==> q == n && Truncates(n, d, -n)
  {
    var a := Udiv64(Abs(n), Abs(d));
    AbsQuotient(Abs(n), Abs(d), a);
    SignedQuotient(n, d, a);
    SignedCast(n, d, a);
    q := if (n < 0) == (d < 0) then Int64(a) else Int64(0 - Int64(a));
    if n == INT64_MIN && d == -1 { OnlyOverflow(a); }
  }

  /** smod64 returns 32 bits of the remainder. */
  method Smod64(n: int, d: int, ghost q: int) returns (r: int)
    requires InInt64(n) && InInt64(d) && d != 0 && Truncates(n, d, q)
    ensures r == Int32(n - q * d) && (r == n - q * d <==> -0x8000_0000 <= n - q * d < 0x8000_0000)
  {
    var p := Sdiv64(n, d);
    r := Int32(Int64(n - p * d));
    if n == INT64_MIN && d == -1 {
      TruncatesOnce(n, d, q, -n);
    } else {
      TruncatesOnce(n, d, q, p);
      FitsInt64(n, d, p * d);
    }
  }

  lemma FitsInt64(n: int, d: int, m: int)
    requires InInt64(n) && InInt64(d) && Leaves(n, d, m)
    ensures Int64(n - m) == n - m
  {
  }
}
