/** Bit operations on natural numbers. */
module Bits {
  import opened Arithmetic

  /** The numbers of values of a 64-bit word and of half a word. */
  const W := 0x1_0000_0000_0000_0000

  const HALF := 0x1_0000_0000

  function Pow2(k: nat): (r: nat)
    ensures 0 < r
  {
    if k == 0 then 1 else 2 * Pow2(k - 1)
  }

  lemma {:induction false} Pow2Add(j: nat, k: nat)
    ensures Pow2(j + k) == Pow2(j) * Pow2(k)
  {
    if j > 0 {
      Pow2Add(j - 1, k);
      Reassociate(2, Pow2(j - 1), Pow2(k));
    }
  }

  lemma {:induction false} Pow2Monotone(j: nat, k: nat)
    requires j <= k
    ensures Pow2(j) <= Pow2(k)
  {
    if j < k {
      Pow2Monotone(j, k - 1);
    }
  }

  lemma Reassociate(a: int, b: int, c: int)
    ensures a * (b * c) == (a * b) * c == b * (a * c)
  {
  }

  function BitOr(a: nat, b: nat): (r: nat) {
    if a == 0 && b == 0 then 0
    else 2 * BitOr(a / 2, b / 2) + if a % 2 == 1 || b % 2 == 1 then 1 else 0
  }

  function BitAnd(a: nat, b: nat): (r: nat) {
    if a == 0 || b == 0 then 0
    else 2 * BitAnd(a / 2, b / 2) + if a % 2 == 1 && b % 2 == 1 then 1 else 0
  }

  lemma {:induction false} OrZero(a: nat)
    ensures BitOr(a, 0) == a && BitOr(0, a) == a
  {
    if a > 0 {
      OrZero(a / 2);
    }
  }

  /** Numbers without a common bit are added. */
  lemma {:induction false} OrDisjoint(x: nat, k: nat, y: nat)
    requires y < Pow2(k)
    ensures BitOr(x * Pow2(k), y) == x * Pow2(k) + y
    ensures BitOr(y, x * Pow2(k)) == x * Pow2(k) + y
  {
    if k == 0 {
      OrZero(x);
    } else {
      var a := x * Pow2(k - 1);
      Reassociate(x, 2, Pow2(k - 1));
      OrDisjoint(x, k - 1, y / 2);
      assert x * Pow2(k) == 2 * a;
      assert (2 * a) / 2 == a && (2 * a) % 2 == 0;
    }
  }

  /** A mask of k ones keeps the remainder by 2^k. */
  lemma {:induction false} AndMask(x: nat, k: nat)
    ensures BitAnd(x, Pow2(k) - 1) == x % Pow2(k)
  {
    if k > 0 {
      var p := Pow2(k - 1);
      AndMask(x / 2, k - 1);
      if x > 0 && k > 0 {
        assert (2 * p - 1) / 2 == p - 1 && (2 * p - 1) % 2 == 1;
        RemainderByDouble(x, p);
      }
    }
  }

  lemma RemainderByDouble(x: nat, p: nat)
    requires 0 < p
    ensures x % (2 * p) == 2 * (x / 2 % p) + x % 2
  {
    var h := x / 2;
    var q := h / p;
    assert h == q * p + h % p;
    assert x == q * (2 * p) + (2 * (h % p) + x % 2);
    ModUnique(x, 2 * p, q, 2 * (h % p) + x % 2);
  }

  /** A single bit of the mask picks that bit. */
  lemma {:induction false} AndBit(x: nat, k: nat)
    ensures BitAnd(x, Pow2(k)) == if x / Pow2(k) % 2 == 1 then Pow2(k) else 0
  {
    if k == 0 {
      assert x > 0 ==> BitAnd(x / 2, 0) == 0;
    } else {
      var p := Pow2(k - 1);
      AndBit(x / 2, k - 1);
      QuotientByDouble(x, p);
      assert (2 * p) / 2 == p && (2 * p) % 2 == 0;
      if x == 0 {
        assert 0 / (2 * p) == 0 by { ModUnique(0, 2 * p, 0, 0); }
      }
    }
  }

  lemma QuotientByDouble(x: nat, p: nat)
    requires 0 < p
    ensures x / (2 * p) == x / 2 / p
  {
    var h := x / 2;
    var q := h / p;
    assert h == q * p + h % p;
    assert x == q * (2 * p) + (2 * (h % p) + x % 2);
    ModUnique(x, 2 * p, q, 2 * (h % p) + x % 2);
  }

  /** A shift to the left that drops the bits above q * p. */
  lemma ShiftWithin(x: nat, p: nat, q: nat)
    requires 0 < p && 0 < q
    ensures (x * p) % (q * p) == (x % q) * p
    ensures x * p == (x / q) * (q * p) + (x % q) * p
    ensures (x % q) * p < q * p
  {
    var a, b := x / q, x % q;
    assert x == a * q + b;
    assert x * p == a * (q * p) + b * p by {
      assert x * p == (a * q) * p + b * p;
      Reassociate(a, q, p);
    }
    assert b * p < q * p by {
      MulAtLeast(q - b, p);
      assert (q - b) * p == q * p - b * p;
    }
    ModUnique(x * p, q * p, a, b * p);
  }

  lemma BelowProduct(x: nat, y: nat, p: nat, q: nat)
    requires x < q && y < p
    ensures x * p + y < q * p
  {
    MulAtLeast(q - x, p);
    assert (q - x) * p == q * p - x * p;
  }

  lemma QuotientBelow(x: nat, p: nat, q: nat)
    requires 0 < q && x < q * p
    ensures x / q < p
  {
    var a := x / q;
    assert x == a * q + x % q;
    Distribute(p - a, a, q);
    MulAtLeast(p - a, q);
    assert 0 * q == 0;
  }

  lemma ByteSize()
    ensures Pow2(8) == 256
  {
  }

  lemma Powers()
    ensures Pow2(32) == HALF && Pow2(64) == W
  {
    Squares(8, 256);
    Squares(16, 0x1_0000);
    Squares(32, HALF);
  }

  lemma Squares(k: nat, v: nat)
    ensures Pow2(k) == v ==> Pow2(2 * k) == v * v
  {
    Pow2Add(k, k);
  }

  lemma {:induction false} OrBound(x: nat, y: nat, k: nat)
    requires x < Pow2(k) && y < Pow2(k)
    ensures BitOr(x, y) < Pow2(k)
  {
    if k > 0 {
      OrBound(x / 2, y / 2, k - 1);
    }
  }
}
