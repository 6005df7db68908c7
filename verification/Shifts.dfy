/** Shifts and masks on natural numbers, one bit at a time. */
module Shifts {
  import opened Bits

  function Shl(v: nat, k: nat): (r: nat) {
    if k == 0 then v else 2 * Shl(v, k - 1)
  }

  function Shr(v: nat, k: nat): (r: nat) {
    if k == 0 then v else Shr(v / 2, k - 1)
  }

  /** The k low bits. */
  function Low(v: nat, k: nat): (r: nat)
    ensures r < Pow2(k)
  {
    if k == 0 then 0 else 2 * Low(v / 2, k - 1) + v % 2
  }

  lemma {:induction false} ShiftsArePowers(v: nat, k: nat)
    ensures Shl(v, k) == v * Pow2(k) && v == Shr(v, k) * Pow2(k) + Low(v, k)
  {
    if k > 0 {
      ShiftsArePowers(v, k - 1);
      Reassociate(2, v, Pow2(k - 1));
      ShiftsArePowers(v / 2, k - 1);
      Reassociate(2, Shr(v / 2, k - 1), Pow2(k - 1));
    }
  }

  lemma {:induction false} Split(v: nat, k: nat)
    ensures v == Shl(Shr(v, k), k) + Low(v, k)
  {
    if k > 0 {
      Split(v / 2, k - 1);
    }
  }

  lemma {:induction false} ShrBound(v: nat, j: nat, k: nat)
    requires v < Pow2(j + k)
    ensures Shr(v, k) < Pow2(j)
  {
    if k > 0 {
      ShrBound(v / 2, j, k - 1);
    }
  }

  lemma {:induction false} ShlBound(x: nat, j: nat, y: nat, k: nat)
    requires x < Pow2(j) && y < Pow2(k)
    ensures Shl(x, k) + y < Pow2(j + k)
  {
    if k > 0 {
      ShlBound(x, j, y / 2, k - 1);
    }
  }

  lemma {:induction false} ShlShl(x: nat, j: nat, k: nat)
    ensures Shl(Shl(x, j), k) == Shl(x, j + k)
  {
    if k > 0 {
      ShlShl(x, j, k - 1);
    }
  }

  lemma {:induction false} ShlAdd(x: nat, y: nat, k: nat)
    ensures Shl(x + y, k) == Shl(x, k) + Shl(y, k)
  {
    if k > 0 {
      ShlAdd(x, y, k - 1);
    }
  }

  lemma {:induction false} LowOfShl(x: nat, k: nat, y: nat, n: nat)
    requires y < Pow2(k)
    ensures Low(Shl(x, k) + y, n + k) == Shl(Low(x, n), k) + y
  {
    if k > 0 {
      var v := Shl(x, k) + y;
      assert v / 2 == Shl(x, k - 1) + y / 2 && v % 2 == y % 2;
      LowOfShl(x, k - 1, y / 2, n);
    }
  }

  lemma {:induction false} LowOfLow(v: nat, n: nat, k: nat)
    requires n <= k
    ensures Low(Low(v, k), n) == Low(v, n)
  {
    if n > 0 {
      var l := Low(v, k);
      assert l / 2 == Low(v / 2, k - 1) && l % 2 == v % 2;
      LowOfLow(v / 2, n - 1, k - 1);
    }
  }

  lemma {:induction false} LowSmall(v: nat, k: nat)
    requires v < Pow2(k)
    ensures Low(v, k) == v
  {
    if k > 0 {
      LowSmall(v / 2, k - 1);
    }
  }

  lemma {:induction false} LowOfShr(v: nat, n: nat, k: nat)
    ensures Low(Shr(v, k), n) == Shr(Low(v, n + k), k)
  {
    if k > 0 {
      var l := Low(v, n + k);
      assert l / 2 == Low(v / 2, n + k - 1);
      LowOfShr(v / 2, n, k - 1);
    }
  }

  lemma {:induction false} OrShl(x: nat, k: nat, y: nat)
    requires y < Pow2(k)
    ensures BitOr(Shl(x, k), y) == Shl(x, k) + y && BitOr(y, Shl(x, k)) == Shl(x, k) + y
  {
    if k == 0 {
      OrZero(x);
    } else {
      var a := Shl(x, k - 1);
      assert (2 * a) / 2 == a && (2 * a) % 2 == 0;
      OrShl(x, k - 1, y / 2);
    }
  }

  /** A mask of k ones keeps the k low bits. */
  lemma {:induction false} AndLow(x: nat, k: nat)
    ensures BitAnd(x, Pow2(k) - 1) == Low(x, k)
  {
    if k > 0 {
      var p := Pow2(k - 1);
      AndLow(x / 2, k - 1);
      assert (2 * p - 1) / 2 == p - 1 && (2 * p - 1) % 2 == 1;
      if x == 0 {
        LowSmall(0, k);
      }
    }
  }

  lemma {:induction false} AndDisjoint(x: nat, y: nat, k: nat)
    requires x < Pow2(k)
    ensures BitAnd(x, Shl(y, k)) == 0
  {
    if k > 0 {
      var a := Shl(y, k - 1);
      assert (2 * a) / 2 == a && (2 * a) % 2 == 0;
      AndDisjoint(x / 2, y, k - 1);
    }
  }
}
