/** Division and remainder on natural numbers. */
module Arithmetic {

  const UINT32_MAX: nat := 0xFFFF_FFFF

  function Min(a: nat, b: nat): (r: nat) {
    if a < b then a else b
  }

  function Max(a: nat, b: nat): (r: nat) {
    if a < b then b else a
  }

  lemma MultipleOfMultiple(v: nat, m: nat, k: nat)
    requires 0 < m && 0 < k && v % (k * m) == 0
    ensures v % m == 0
  {
    var q := v / (k * m);
    assert v == (q * k) * m by {
      assert v == (k * m) * q;
      assert (k * m) * q == (q * k) * m;
    }
    ModOfProduct(q * k, m);
  }

  lemma {:induction false} ModOfProduct(q: nat, m: nat)
    requires 0 < m
    ensures (q * m) % m == 0
  {
    if q > 0 {
      ModOfProduct(q - 1, m);
      assert q * m == (q - 1) * m + m;
      ModShift((q - 1) * m, m);
    }
  }

  lemma {:induction false} ModUnique(v: nat, m: nat, q: nat, r: nat)
    requires 0 < m && r < m && v == q * m + r
    ensures v % m == r && v / m == q
  {
    if q > 0 {
      assert v - m == (q - 1) * m + r;
      ModUnique(v - m, m, q - 1, r);
      ModShift(v - m, m);
    } else {
      assert v == r;
    }
  }

  lemma ModShift(v: nat, m: nat)
    requires 0 < m
    ensures (v + m) % m == v % m && (v + m) / m == v / m + 1
  {
    var a, b := v / m, (v + m) / m;
    assert v == a * m + v % m && v + m == b * m + (v + m) % m;
    assert (b - a - 1) * m == v % m - (v + m) % m;
    MulAtLeast(b - a - 1, m);
  }

  lemma MulAtLeast(d: int, m: int)
    requires 0 < m
    ensures d >= 1 ==> d * m >= m
    ensures d <= -1 ==> d * m <= -m
  {
    if d >= 1 {
      assert (d - 1) * m >= 0;
    } else if d <= -1 {
      assert (-d - 1) * m >= 0;
    }
  }

  /** A positive multiple of h is h or at least 2h; h and 2h are multiples of h. */
  lemma MultiplesOf(v: nat, h: nat)
    requires 0 < v && 0 < h
    ensures v % h == 0 ==> v == h || 2 * h <= v
    ensures v == h || v == 2 * h ==> v % h == 0
  {
    ModOfProduct(1, h);
    ModOfProduct(2, h);
    var q := v / h;
    assert v == q * h + v % h;
    if q >= 2 {
      MulAtLeast(q - 1, h);
      assert q * h == (q - 1) * h + h;
    }
  }

  lemma AddMultiple(v: nat, m: nat, k: nat)
    requires 0 < m
    ensures (v + k * m) % m == v % m
  {
    assert v + k * m == (v / m + k) * m + v % m;
    ModUnique(v + k * m, m, v / m + k, v % m);
  }

  lemma Distribute(a: int, b: int, c: int)
    ensures (a + b) * c == a * c + b * c
  {
  }
}
