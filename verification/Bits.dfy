/** Powers of two and bitwise "and" on unsigned words, as arithmetic. */
module Bits {

  const B64: nat := 0x1_0000_0000_0000_0000

  function Pow2(k: nat): nat
    ensures Pow2(k) > 0
  {
    if k == 0 then 1 else 2 * Pow2(k - 1)
  }

  lemma {:induction false} Pow2Add(j: nat, k: nat)
    ensures Pow2(j + k) == Pow2(j) * Pow2(k)
  {
    if j > 0 {
      Pow2Add(j - 1, k);
    }
  }

  /** x & y */
  function And(x: nat, y: nat): nat {
    if x == 0 || y == 0 then 0 else 2 * And(x / 2, y / 2) + (if x % 2 == 1 && y % 2 == 1 then 1 else 0)
  }

  lemma {:induction false} AndSelf(x: nat)
    ensures And(x, x) == x
  {
    if x > 0 { AndSelf(x / 2); }
  }

  /** Masking with one less than a power of two is taking the remainder. */
  lemma {:induction false} AndMask(x: nat, k: nat)
    ensures And(x, Pow2(k) - 1) == x % Pow2(k)
    decreases k
  {
    if k > 0 {
      var p := Pow2(k - 1);
      AndMask(x / 2, k - 1);
      assert (2 * p - 1) / 2 == p - 1 && (2 * p - 1) % 2 == 1;
      HalfMod(x, p);
    }
  }

  lemma HalfMod(x: nat, p: nat)
    requires p > 0
    ensures x % (2 * p) == 2 * (x / 2 % p) + x % 2
  {
    var h := x / 2;
    var q, r := h / p, h % p;
    assert h == q * p + r;
    assert x == q * (2 * p) + (2 * r + x % 2);
    ModIs(x, 2 * p, q, 2 * r + x % 2);
  }

  lemma ModIs(x: nat, m: nat, q: nat, r: nat)
    requires r < m && x == q * m + r
    ensures x % m == r
  {
    var k := x / m - q;
    assert x == (x / m) * m + x % m;
    assert k * m == r - x % m;
    assert k >= 1 ==> k * m >= m;
    assert k <= -1 ==> (-k) * m >= m;
  }

  /** x & (x - 1): the lowest 1 bit turned off. */
  function TurnOffLeast1(x: nat): nat
    requires x > 0
  {
    And(x, x - 1)
  }

  /** The largest power of two not above x, for x > 0. */
  function TopBit(x: nat): nat {
    if x < 2 then x else 2 * TopBit(x / 2)
  }

  lemma {:induction false} TopBitIs(x: nat) returns (k: nat)
    requires x > 0
    ensures TopBit(x) == Pow2(k) && Pow2(k) <= x < 2 * Pow2(k)
  {
    if x < 2 {
      k := 0;
    } else {
      k := TopBitIs(x / 2);
      k := k + 1;
    }
  }

  /** Turning bits off from below ends at the top bit. */
  lemma {:induction false} TurnOffKeepsTop(x: nat)
    requires x > 0
    ensures var y := TurnOffLeast1(x);
            && y < x && (y == 0 <==> x == TopBit(x)) && (y != 0 ==> TopBit(y) == TopBit(x))
  {
    if x % 2 == 1 {
      assert (x - 1) / 2 == x / 2;
      AndSelf(x / 2);
    } else {
      assert (x - 1) / 2 == x / 2 - 1;
      TurnOffKeepsTop(x / 2);
    }
  }

  // ------------------------------------------------------------------ single bits

  /** Bit `k` of a word. */
  predicate Bit(w: nat, k: nat)
    decreases k
  {
    if k == 0 then w % 2 == 1 else Bit(w / 2, k - 1)
  }

  /** x | y, x & ~y, x ^ y */
  function Or(x: nat, y: nat): nat {
    if x == 0 && y == 0 then 0 else 2 * Or(x / 2, y / 2) + (if x % 2 == 1 || y % 2 == 1 then 1 else 0)
  }

  function AndNot(x: nat, y: nat): nat {
    if x == 0 then 0 else 2 * AndNot(x / 2, y / 2) + (if x % 2 == 1 && y % 2 == 0 then 1 else 0)
  }

  function Xor(x: nat, y: nat): nat {
    if x == 0 && y == 0 then 0 else 2 * Xor(x / 2, y / 2) + (if x % 2 == y % 2 then 0 else 1)
  }

  lemma {:induction false} ZeroBit(k: nat)
    ensures !Bit(0, k)
  {
    if k > 0 { ZeroBit(k - 1); }
  }

  /** The lowest bit, and the others. */
  lemma Halves(x: nat, y: nat)
    ensures And(x, y) / 2 == And(x / 2, y / 2) && (And(x, y) % 2 == 1 <==> x % 2 == 1 && y % 2 == 1)
    ensures Or(x, y) / 2 == Or(x / 2, y / 2) && (Or(x, y) % 2 == 1 <==> x % 2 == 1 || y % 2 == 1)
  {
  }

  lemma HalvesNot(x: nat, y: nat)
    ensures AndNot(x, y) / 2 == AndNot(x / 2, y / 2) && (AndNot(x, y) % 2 == 1 <==> x % 2 == 1 && y % 2 != 1)
    ensures Xor(x, y) / 2 == Xor(x / 2, y / 2) && (Xor(x, y) % 2 == 1 <==> x % 2 != y % 2)
  {
  }

  lemma {:induction false} BitsOf(x: nat, y: nat, k: nat)
    ensures Bit(And(x, y), k) <==> Bit(x, k) && Bit(y, k)
    ensures Bit(Or(x, y), k) <==> Bit(x, k) || Bit(y, k)
    ensures Bit(AndNot(x, y), k) <==> Bit(x, k) && !Bit(y, k)
    ensures Bit(Xor(x, y), k) <==> (Bit(x, k) != Bit(y, k))
    decreases k
  {
    Halves(x, y);
    HalvesNot(x, y);
    if k > 0 { BitsOf(x / 2, y / 2, k - 1); }
  }

  /** 1 << k has one bit. */
  lemma {:induction false} Pow2Bit(k: nat, j: nat)
    ensures Bit(Pow2(k), j) <==> j == k
    decreases k
  {
    if k == 0 {
      if j > 0 { ZeroBit(j - 1); }
    } else if j > 0 {
      Pow2Bit(k - 1, j - 1);
    }
  }

  /** A word with a bit is not 0. */
  lemma {:induction false} SomeBit(w: nat)
    requires w > 0
    ensures exists k: nat :: Bit(w, k)
  {
    if w % 2 == 1 {
      assert Bit(w, 0);
    } else {
      SomeBit(w / 2);
      var k: nat :| Bit(w / 2, k);
      assert Bit(w, k + 1);
    }
  }

  /** Testing a bit with a mask. */
  lemma MaskTest(w: nat, k: nat)
    ensures And(w, Pow2(k)) != 0 <==> Bit(w, k)
  {
    BitsOf(w, Pow2(k), k);
    Pow2Bit(k, k);
    ZeroBit(k);
    if And(w, Pow2(k)) != 0 {
      SomeBit(And(w, Pow2(k)));
      var j: nat :| Bit(And(w, Pow2(k)), j);
      BitsOf(w, Pow2(k), j);
      Pow2Bit(k, j);
    }
  }

  /** Words of n bits stay words of n bits. */
  lemma {:induction false} WordOps(x: nat, y: nat, n: nat)
    requires x < Pow2(n) && y < Pow2(n)
    ensures Or(x, y) < Pow2(n) && AndNot(x, y) < Pow2(n) && Xor(x, y) < Pow2(n) && And(x, y) < Pow2(n)
    decreases n
  {
    if n > 0 { WordOps(x / 2, y / 2, n - 1); }
  }

  lemma {:induction false} Pow2Less(j: nat, k: nat)
    requires j < k
    ensures Pow2(j) < Pow2(k)
  {
    if j + 1 < k { Pow2Less(j, k - 1); }
  }

  /** Taking a remainder keeps the low bits. */
  lemma {:induction false} LowBits(w: nat, n: nat, k: nat)
    requires k < n
    ensures Bit(w % Pow2(n), k) == Bit(w, k)
    decreases k
  {
    HalfMod(w, Pow2(n - 1));
    if k > 0 {
      LowBits(w / 2, n - 1, k - 1);
      assert (2 * (w / 2 % Pow2(n - 1)) + w % 2) / 2 == w / 2 % Pow2(n - 1);
    }
  }
}
