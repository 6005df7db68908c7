/** Portable 128-bit unsigned arithmetic on pairs of 64-bit words (lib/util/uint128_t.h). */
module Uint128 {
  import opened Arithmetic
  import opened Bits

  type Word = x: int | 0 <= x < W

  datatype U128 = U128(high: Word, low: Word) {
    function Value(): (v: nat)
      ensures v < W * W
    {
      high * W + low
    }
  }

  // ----- words

  function ShlWord(x: Word, k: nat): (r: Word)
    requires k < 64
  {
    x * Pow2(k) % W
  }

  function ShrWord(x: Word, k: nat): (r: Word)
    requires k < 64
    ensures r <= x
  {
    ShrSmaller(x, Pow2(k));
    x / Pow2(k)
  }

  lemma ShrSmaller(x: nat, p: nat)
    requires 0 < p
    ensures 0 <= x / p <= x
  {
    var q := x / p;
    assert x == q * p + x % p;
    QuotientNotNegative(x, p, q);
    LessOne(q, p);
    NotNegative(q, p - 1);
  }

  lemma QuotientNotNegative(x: nat, p: nat, q: int)
    requires 0 < p && q == x / p
    ensures 0 <= q
  {
  }

  lemma LessOne(a: int, b: int)
    ensures a * (b - 1) == a * b - a
  {
  }

  lemma NotNegative(x: nat, y: nat)
    ensures 0 <= x * y
  {
  }

  // ----- comparison, sum and difference

  predicate Less(a: U128, b: U128)
    ensures Less(a, b) <==> a.Value() < b.Value()
  {
    a.high < b.high || (a.high == b.high && a.low < b.low)
  }

  function Add(a: U128, b: U128): (r: U128) {
    var low := WrapWord(a.low + b.low);
    U128(WrapWord(a.high + b.high + if low < a.low then 1 else 0), low)
  }

  function Sub(a: U128, b: U128): (r: U128) {
    U128(WrapWord(a.high - b.high - if a.low < b.low then 1 else 0), WrapWord(a.low - b.low))
  }

  /** Unsigned arithmetic wraps around. */
  function WrapWord(x: int): (r: Word) {
    x % W
  }

  lemma WrapOnce(x: int)
    requires -W <= x < 2 * W
    ensures WrapWord(x) == if x < 0 then x + W else if x < W then x else x - W
  {
  }

  lemma AddIsModular(a: U128, b: U128)
    ensures Add(a, b).Value() == (a.Value() + b.Value()) % (W * W)
  {
    var v, r := a.Value() + b.Value(), Add(a, b).Value();
    WrapOnce(a.low + b.low);
    WrapOnce(a.high + b.high + if Add(a, b).low < a.low then 1 else 0);
    assert r == v || r == v - W * W;
    ModUnique(v, W * W, if r == v then 0 else 1, r);
  }

  lemma SubIsModular(a: U128, b: U128)
    ensures Sub(a, b).Value() == a.Value() - b.Value() + if Less(a, b) then W * W else 0
  {
    WrapOnce(a.low - b.low);
    WrapOnce(a.high - b.high - if a.low < b.low then 1 else 0);
  }

  // ----- shifts

  function Low6(r: nat): (k: nat)
    ensures k == r % 64
  {
    AndMask(r, 6);
    BitAnd(r, 63)
  }

  predicate Bit6(r: nat)
    ensures Bit6(r) <==> r / 64 % 2 == 1
  {
    AndBit(r, 6);
    BitAnd(r, 64) != 0
  }

  function OrWord(x: Word, y: Word): (r: Word) {
    Powers();
    OrBound(x, y, 64);
    BitOr(x, y)
  }

  function Shl(a: U128, r: nat): (s: U128) {
    var k := Low6(r);
    if Bit6(r) then U128(ShlWord(a.low, k), 0) else ShlLow(a, k)
  }

  function ShlLow(a: U128, k: nat): (s: U128)
    requires k < 64
  {
    if k != 0 then U128(OrWord(ShlWord(a.high, k), ShrWord(a.low, 64 - k)), ShlWord(a.low, k)) else a
  }

  function Shr(a: U128, r: nat): (s: U128) {
    var k := Low6(r);
    if Bit6(r) then U128(0, ShrWord(a.high, k)) else ShrLow(a, k)
  }

  function ShrLow(a: U128, k: nat): (s: U128)
    requires k < 64
  {
    if k != 0 then U128(ShrWord(a.high, k), OrWord(ShlWord(a.high, 64 - k), ShrWord(a.low, k))) else a
  }

  lemma SplitWord(k: nat)
    requires k <= 64
    ensures Pow2(64 - k) * Pow2(k) == W
  {
    Powers();
    Pow2Add(64 - k, k);
  }

  /** The part of a word that a shift to the left keeps, and the part that it moves out. */
  lemma WordParts(x: Word, p: nat, q: nat)
    requires 0 < p && 0 < q && q * p == W
    ensures x * p % W == (x % q) * p && x * p == (x / q) * W + (x % q) * p
    ensures x / q < p
  {
    ShiftWithin(x, p, q);
    QuotientBelow(x, p, q);
  }

  /** The two words of a shift by fewer than 64 bits to the left. */
  lemma ShlWords(h: Word, l: Word, p: nat, q: nat)
    requires 0 < p && 0 < q && q * p == W
    ensures ((h % q) * p + l / q) * W + (l % q) * p == (h * W + l) * p % (W * W)
  {
    WordParts(h, p, q);
    WordParts(l, p, q);
    var h1, h0, l1, l0 := h / q, (h % q) * p, l / q, (l % q) * p;
    assert (h * W + l) * p == (h * p) * W + l * p by { Reassociate(h, W, p); Distribute(h * W, l, p); }
    assert (h * W + l) * p == h1 * (W * W) + ((h0 + l1) * W + l0) by {
      assert (h1 * W + h0) * W == h1 * (W * W) + h0 * W;
    }
    assert h0 + l1 < W by { BelowProduct(h % q, l1, p, q); }
    ModUnique((h * W + l) * p, W * W, h1, (h0 + l1) * W + l0);
  }

  /** The words of a shift by at least 64 bits to the left. */
  lemma ShlHighWord(h: Word, l: Word, p: nat, q: nat)
    requires 0 < p && 0 < q && q * p == W
    ensures (l * p % W) * W == (h * W + l) * (W * p) % (W * W)
  {
    WordParts(l, p, q);
    var l1, l0 := l / q, (l % q) * p;
    var v := h * W + l;
    Distribute(h * W, l, p);
    Reassociate(W, h, p);
    Reassociate(v, W, p);
    assert v * (W * p) == (h * p + l1) * (W * W) + l0 * W;
    ModUnique(v * (W * p), W * W, h * p + l1, l0 * W);
  }

  /** The words of a shift by fewer than 64 bits to the right. */
  lemma ShrWords(h: Word, l: Word, p: nat, q: nat)
    requires 0 < p && 0 < q && q * p == W
    ensures (h / p) * W + (h % p) * q + l / p == (h * W + l) / p
  {
    var h1, h0, l1, l0 := h / p, h % p, l / p, l % p;
    NotNegative(h0, q);
    ShrEquation(h1, h0, l1, l0, p, q);
    ModUnique(h * W + l, p, h1 * W + h0 * q + l1, l0);
  }

  lemma ShrEquation(h1: nat, h0: nat, l1: nat, l0: nat, p: nat, q: nat)
    requires q * p == W
    ensures (h1 * p + h0) * W + (l1 * p + l0) == (h1 * W + h0 * q + l1) * p + l0
  {
    Reassociate(h0, q, p);
    Distribute(h1 * W, h0 * q, p);
    Distribute(h1 * W + h0 * q, l1, p);
  }

  lemma ShrHighWord(h: Word, l: Word, p: nat)
    requires 0 < p
    ensures h / p == (h * W + l) / (W * p)
  {
    var h1, h0 := h / p, h % p;
    assert h == h1 * p + h0;
    assert h * W + l == h1 * (W * p) + (h0 * W + l) by {
      assert (h1 * p + h0) * W == h1 * (W * p) + h0 * W;
    }
    BelowProduct(h0, l, W, p);
    ModUnique(h * W + l, W * p, h1, h0 * W + l);
  }

  /** A shift count counts modulo 128. */
  lemma Count(r: nat)
    ensures Pow2(r % 128) == if Bit6(r) then W * Pow2(Low6(r)) else Pow2(Low6(r))
  {
    RemainderByDouble(r, 64);
    var k := r % 64;
    assert r % 128 == if r / 64 % 2 == 1 then 64 + k else k by {
      var q := r / 64;
      assert r == q * 64 + k && q == (q / 2) * 2 + q % 2;
      ModUnique(r, 128, q / 2, (q % 2) * 64 + k);
    }
    Powers();
    Pow2Add(64, k);
  }

  lemma ShlIsModular(a: U128, r: nat)
    ensures Shl(a, r).Value() == a.Value() * Pow2(r % 128) % (W * W)
  {
    Count(r);
    var k := Low6(r);
    SplitWord(k);
    if Bit6(r) {
      ShlHighWord(a.high, a.low, Pow2(k), Pow2(64 - k));
    } else {
      ShlLowIsModular(a, k);
    }
  }

  lemma ShlLowIsModular(a: U128, k: nat)
    requires k < 64
    ensures ShlLow(a, k).Value() == a.Value() * Pow2(k) % (W * W)
  {
    SplitWord(k);
    ShlWords(a.high, a.low, Pow2(k), Pow2(64 - k));
    ShlJoin(a.high, a.low, k);
  }

  /** The words that the shift to the left joins have no bit in common. */
  lemma ShlJoin(h: Word, l: Word, k: nat)
    requires k < 64
    ensures ShlWord(l, k) == (l % Pow2(64 - k)) * Pow2(k)
    ensures k > 0 ==> OrWord(ShlWord(h, k), ShrWord(l, 64 - k)) == (h % Pow2(64 - k)) * Pow2(k) + l / Pow2(64 - k)
    ensures k == 0 ==> h == (h % Pow2(64)) * Pow2(0) + l / Pow2(64) && l == (l % Pow2(64)) * Pow2(0)
  {
    SplitWord(k);
    WordParts(h, Pow2(k), Pow2(64 - k));
    WordParts(l, Pow2(k), Pow2(64 - k));
    if k > 0 {
      Join(ShlWord(h, k), ShrWord(l, 64 - k), h % Pow2(64 - k), k);
    }
    Powers();
  }

  lemma Join(x: Word, y: Word, c: nat, k: nat)
    requires x == c * Pow2(k) && y < Pow2(k)
    ensures OrWord(x, y) == x + y
  {
    OrDisjoint(c, k, y);
  }

  lemma ShrIsQuotient(a: U128, r: nat)
    ensures Shr(a, r).Value() == a.Value() / Pow2(r % 128)
  {
    Count(r);
    var k := Low6(r);
    if Bit6(r) {
      ShrHighWord(a.high, a.low, Pow2(k));
    } else {
      ShrLowIsQuotient(a, k);
    }
  }

  lemma ShrLowIsQuotient(a: U128, k: nat)
    requires k < 64
    ensures ShrLow(a, k).Value() == a.Value() / Pow2(k)
  {
    SplitWord(k);
    ShrWords(a.high, a.low, Pow2(k), Pow2(64 - k));
    ShrJoin(a.high, a.low, k);
  }

  lemma ShrJoin(h: Word, l: Word, k: nat)
    requires k < 64
    ensures k > 0 ==> OrWord(ShlWord(h, 64 - k), ShrWord(l, k)) == (h % Pow2(k)) * Pow2(64 - k) + l / Pow2(k)
  {
    SplitWord(k);
    WordParts(h, Pow2(64 - k), Pow2(k));
    WordParts(l, Pow2(64 - k), Pow2(k));
    if k > 0 {
      Join(ShlWord(h, 64 - k), ShrWord(l, k), h % Pow2(k), 64 - k);
    }
  }

  // ----- product

  function LowHalf(x: Word): (r: nat)
    ensures r == x % HALF
  {
    Powers();
    AndMask(x, 32);
    BitAnd(x, HALF - 1)
  }

  function HighHalf(x: Word): (r: nat)
    ensures r == x / HALF && r < HALF
  {
    Powers();
    ShrWord(x, 32)
  }

  function HalfProduct(x: nat, y: nat): (r: Word)
    requires x < HALF && y < HALF
  {
    HalvesFit(x, y);
    x * y
  }

  lemma HalvesFit(x: nat, y: nat)
    requires x < HALF && y < HALF
    ensures 0 <= x * y < W
  {
    NotNegative(x, y);
    NotNegative(x, HALF - y);
    HalfMinus(x, y);
  }

  lemma HalfMinus(x: nat, y: nat)
    ensures x * (HALF - y) == x * HALF - x * y
  {
  }

  function HighWord(a: U128, b: U128, highs: Word): (r: Word) {
    WrapWord(WrapWord(a.low * b.high + b.low * a.high) + highs)
  }

  /** The partial products that are added: the high and the low word, and two that count from bit 32. */
  datatype Terms = Terms(high: Word, low: Word, x: Word, y: Word) {
    function Sum(): (r: nat) {
      high * W + low + x * HALF + y * HALF
    }
  }

  /** The terms, given the halves of the low words. */
  function TermsOf(a: U128, b: U128, a1: nat, a0: nat, b1: nat, b0: nat): (r: Terms)
    requires a1 < HALF && a0 < HALF && b1 < HALF && b0 < HALF
  {
    Terms(HighWord(a, b, HalfProduct(a1, b1)), HalfProduct(a0, b0), HalfProduct(a1, b0), HalfProduct(b1, a0))
  }

  function Mul(a: U128, b: U128): (r: U128) {
    AddTerms(TermsOf(a, b, HighHalf(a.low), LowHalf(a.low), HighHalf(b.low), LowHalf(b.low)))
  }

  function AddTerms(t: Terms): (r: U128) {
    Add(Add(U128(t.high, t.low), Shl(U128(0, t.x), 32)), Shl(U128(0, t.y), 32))
  }

  lemma MulIsModular(a: U128, b: U128)
    ensures Mul(a, b).Value() == a.Value() * b.Value() % (W * W)
  {
    var a1, a0, b1, b0 := HighHalf(a.low), LowHalf(a.low), HighHalf(b.low), LowHalf(b.low);
    var t := TermsOf(a, b, a1, a0, b1, b0);
    MulSum(t);
    Halves(a.low, a1, a0);
    Halves(b.low, b1, b0);
    var k := MulParts(a, b, a1, a0, b1, b0, t);
    Wraps(Mul(a, b).Value(), t.Sum(), a.Value() * b.Value(), k);
  }

  lemma Wraps(r: nat, s: nat, v: nat, k: nat)
    requires r == s % (W * W) && v == s + k * (W * W)
    ensures r == v % (W * W)
  {
    AddMultiple(s, W * W, k);
  }

  lemma MulSum(t: Terms)
    ensures AddTerms(t).Value() == t.Sum() % (W * W)
  {
    ShiftedHalf(t.x);
    ShiftedHalf(t.y);
    var a, b, c := U128(t.high, t.low), Shl(U128(0, t.x), 32), Shl(U128(0, t.y), 32);
    AddThree(a, b, c);
    SameSum(Add(Add(a, b), c).Value(), a.Value() + b.Value() + c.Value(), t.Sum());
  }

  lemma SameSum(r: nat, s: nat, s': nat)
    requires r == s % (W * W) && s == s'
    ensures r == s' % (W * W)
  {
  }

  lemma Halves(x: Word, x1: nat, x0: nat)
    requires x1 == x / HALF && x0 == x % HALF
    ensures x == x1 * HALF + x0
  {
  }

  /** What the sum lacks is a multiple of 2^128. */
  lemma MulParts(a: U128, b: U128, a1: nat, a0: nat, b1: nat, b0: nat, t: Terms) returns (k: nat)
    requires a1 < HALF && a0 < HALF && b1 < HALF && b0 < HALF && t == TermsOf(a, b, a1, a0, b1, b0)
    requires a.low == a1 * HALF + a0 && b.low == b1 * HALF + b0
    ensures a.Value() * b.Value() == t.Sum() + k * (W * W)
  {
    var k' := HighWordWraps(a, b, HalfProduct(a1, b1));
    k := PositiveSum(k', a.high, b.high);
    ProductParts(a.high, a.low, b.high, b.low, a1, a0, b1, b0, k', t, k, a.Value(), b.Value());
  }

  lemma PositiveSum(k: nat, x: nat, y: nat) returns (r: nat)
    ensures r == k + x * y
  {
    NotNegative(x, y);
    r := k + x * y;
  }

  lemma ProductParts(ah: nat, al: nat, bh: nat, bl: nat, a1: nat, a0: nat, b1: nat, b0: nat, k: nat,
                     t: Terms, wraps: nat, va: nat, vb: nat)
    requires al == a1 * HALF + a0 && bl == b1 * HALF + b0
    requires al * bh + bl * ah + a1 * b1 == t.high + k * W
    requires t.low == a0 * b0 && t.x == a1 * b0 && t.y == b1 * a0 && wraps == k + ah * bh
    requires va == ah * W + al && vb == bh * W + bl
    ensures va * vb == t.Sum() + wraps * (W * W)
  {
    TimesPair(ah, al, bh, bl, W);
    TimesPair(a1, a0, b1, b0, HALF);
  }

  lemma ShiftedHalf(x: Word)
    ensures Shl(U128(0, x), 32).Value() == x * HALF
  {
    Powers();
    ShlIsModular(U128(0, x), 32);
    ModUnique(x * HALF, W * W, 0, x * HALF);
  }

  lemma AddThree(a: U128, b: U128, c: U128)
    ensures Add(Add(a, b), c).Value() == (a.Value() + b.Value() + c.Value()) % (W * W)
  {
    AddIsModular(a, b);
    AddIsModular(Add(a, b), c);
    AddRemainder(Add(Add(a, b), c).Value(), Add(a, b).Value(), a.Value() + b.Value(), c.Value());
  }

  lemma AddRemainder(r: nat, s: nat, x: nat, y: nat)
    requires s == x % (W * W) && r == (s + y) % (W * W)
    ensures r == (x + y) % (W * W)
  {
    AddMultiple(s + y, W * W, x / (W * W));
  }

  lemma HighWraps(x: nat, y: nat, x': nat, y': nat, z: nat) returns (k: nat)
    ensures x * y + x' * y' + z == WrapWord(WrapWord(x * y + x' * y') + z) + k * W
  {
    NotNegative(x, y);
    NotNegative(x', y');
    k := WrapTwice(x * y + x' * y', z);
  }

  lemma HighWordWraps(a: U128, b: U128, highs: Word) returns (k: nat)
    ensures a.low * b.high + b.low * a.high + highs == HighWord(a, b, highs) + k * W
  {
    k := HighWraps(a.low, b.high, b.low, a.high, highs);
  }

  lemma WrapTwice(cross: nat, z: nat) returns (k: nat)
    ensures cross + z == WrapWord(WrapWord(cross) + z) + k * W
  {
    k := cross / W + (WrapWord(cross) + z) / W;
  }

  lemma TimesPair(a: nat, b: nat, c: nat, d: nat, w: nat)
    ensures (a * w + b) * (c * w + d) == (a * c) * (w * w) + (a * d + b * c) * w + b * d
  {
    Distribute(a * w, b, c * w + d);
    calc {
      (a * w) * (c * w + d);
      (a * w) * (c * w) + (a * w) * d;
      (a * c) * (w * w) + (a * d) * w;
    }
    calc {
      b * (c * w + d);
      b * (c * w) + b * d;
      (b * c) * w + b * d;
    }
  }

  // ----- quotient and remainder

  function BitLength(x: nat): (n: nat) {
    if x == 0 then 0 else 1 + BitLength(x / 2)
  }

  lemma {:induction false} BitLengthBounds(x: nat)
    requires 0 < x
    ensures 0 < BitLength(x) && Pow2(BitLength(x) - 1) <= x < Pow2(BitLength(x))
  {
    if x > 1 {
      BitLengthBounds(x / 2);
    }
  }

  lemma LengthWithin(n: nat, x: nat, k: nat)
    requires 0 < n && Pow2(n - 1) <= x < Pow2(k)
    ensures n <= k
  {
    if k < n {
      Pow2Monotone(k, n - 1);
      assert false;
    }
  }

  function ClzWord(x: Word): (z: nat)
    requires 0 < x
    ensures z < 64
  {
    BitLengthBounds(x);
    Powers();
    LengthWithin(BitLength(x), x, 64);
    64 - BitLength(x)
  }

  function Clz(a: U128): (z: nat)
    requires 0 < a.Value()
    ensures z < 128
  {
    if a.high != 0 then ClzWord(a.high) else 64 + ClzWord(a.low)
  }

  lemma ClzBounds(a: U128)
    requires 0 < a.Value()
    ensures Pow2(127 - Clz(a)) <= a.Value() < Pow2(128 - Clz(a))
  {
    Powers();
    if a.high != 0 {
      var n := BitLength(a.high);
      BitLengthBounds(a.high);
      Pow2Add(n - 1, 64);
      Pow2Add(n, 64);
    } else {
      BitLengthBounds(a.low);
    }
  }

  /** The number with fewer leading zeros is the greater one. */
  lemma ClzMonotone(a: U128, b: U128)
    requires 0 < b.Value() <= a.Value()
    ensures Clz(a) <= Clz(b)
  {
    ClzBounds(a);
    ClzBounds(b);
    if Clz(b) < Clz(a) {
      Pow2Monotone(128 - Clz(a), 127 - Clz(b));
      assert false;
    }
  }

  /** The divisor moved up to the length of the dividend still fits, and the dividend is less than twice that. */
  lemma Aligned(dividend: U128, divisor: U128)
    requires 0 < divisor.Value() <= dividend.Value()
    ensures Clz(dividend) <= Clz(divisor)
    ensures var z := Clz(divisor) - Clz(dividend);
            && Shl(divisor, z).Value() == divisor.Value() * Pow2(z)
            && dividend.Value() < 2 * (divisor.Value() * Pow2(z))
  {
    ClzMonotone(dividend, divisor);
    ClzBounds(dividend);
    ClzBounds(divisor);
    AlignedValues(dividend.Value(), divisor.Value(), Clz(dividend), Clz(divisor));
    ShlFits(divisor, Clz(divisor) - Clz(dividend));
  }

  lemma AlignedValues(v: nat, u: nat, e: nat, s: nat)
    requires e <= s < 128 && v < Pow2(128 - e) && Pow2(127 - s) <= u < Pow2(128 - s)
    ensures u * Pow2(s - e) < W * W && v < 2 * (u * Pow2(s - e))
  {
    Pow2Add(127 - s, s - e);
    Pow2Add(128 - s, s - e);
    Scale(u, Pow2(127 - s), Pow2(128 - s), Pow2(s - e));
    FullPower();
    Pow2Monotone(128 - e, 128);
  }

  lemma ShlFits(a: U128, z: nat)
    requires z < 128 && a.Value() * Pow2(z) < W * W
    ensures Shl(a, z).Value() == a.Value() * Pow2(z)
  {
    ShlIsModular(a, z);
    Small(z, 128);
    Fits(Shl(a, z).Value(), a.Value(), Pow2(z));
  }

  lemma Fits(r: nat, x: nat, p: nat)
    requires r == x * p % (W * W) && x * p < W * W
    ensures r == x * p
  {
    Small(x * p, W * W);
  }

  lemma Small(x: nat, m: nat)
    requires x < m
    ensures x % m == x
  {
    ModUnique(x, m, 0, x);
  }

  lemma FullPower()
    ensures Pow2(128) == W * W
  {
    Powers();
    Squares(64, W);
  }

  lemma Scale(x: nat, low: nat, high: nat, p: nat)
    requires low <= x < high && 0 < p
    ensures low * p <= x * p < high * p
  {
    MulAtLeast(high - x, p);
    assert (x - low) * p >= 0;
  }

  function OrOne(a: U128): (r: U128) {
    U128(OrWord(a.high, 0), OrWord(a.low, 1))
  }

  lemma OrOneAdds(a: U128)
    requires a.Value() % 2 == 0
    ensures OrOne(a).Value() == a.Value() + 1
  {
    OrZero(a.high);
    EvenLow(a.high, a.low);
    Join(a.low, 1, a.low / 2, 1);
  }

  lemma EvenLow(h: Word, l: Word)
    requires (h * W + l) % 2 == 0
    ensures l == (l / 2) * Pow2(1)
  {
  }

  /** One round of the long division: z more are to come. */
  ghost predicate Dividing(v: nat, u: nat, z: nat, d: nat, rest: nat, quot: nat) {
    d == u * Pow2(z) && v == quot * d + rest
  }

  lemma TakeOne(v: nat, u: nat, z: nat, d: nat, rest: nat, quot: nat)
    requires Dividing(v, u, z, d, rest, quot) && d <= rest
    ensures Dividing(v, u, z, d, rest - d, quot + 1)
  {
    Distribute(quot, 1, d);
  }

  lemma HalveDivisor(v: nat, u: nat, z: nat, d: nat, rest: nat, quot: nat)
    requires Dividing(v, u, z, d, rest, quot) && 0 < u && 0 < z && v < W * W
    ensures d == 2 * (d / 2) && Dividing(v, u, z - 1, d / 2, rest, 2 * quot) && 2 * quot < W * W
  {
    var h := u * Pow2(z - 1);
    Reassociate(2, u, Pow2(z - 1));
    Halved(d, h);
    Reassociate(2, quot, h);
    MulAtLeast(u, Pow2(z - 1));
    LessOne(2 * quot, h);
    NotNegative(2 * quot, h - 1);
  }

  lemma Halved(d: nat, h: nat)
    requires d == 2 * h
    ensures d / 2 == h
  {
  }

  method Subtract(rest: U128, quot: U128, d: U128) returns (rest': U128, quot': U128)
    requires quot.Value() % 2 == 0
    ensures if rest.Value() < d.Value() then rest' == rest && quot' == quot
            else rest'.Value() == rest.Value() - d.Value() && quot'.Value() == quot.Value() + 1
  {
    rest', quot' := rest, quot;
    if !Less(rest, d) {
      SubIsModular(rest, d);
      rest' := Sub(rest, d);
      OrOneAdds(quot);
      quot' := OrOne(quot);
    }
  }

  lemma ShiftOne(a: U128)
    ensures Shr(a, 1).Value() == a.Value() / 2
    ensures 2 * a.Value() < W * W ==> Shl(a, 1).Value() == 2 * a.Value()
  {
    Small(1, 128);
    assert Pow2(1) == 2;
    ShrIsQuotient(a, 1);
    ShlIsModular(a, 1);
    DoubleFits(Shl(a, 1).Value(), a.Value(), Pow2(1));
  }

  lemma DoubleFits(r: nat, x: nat, p: nat)
    requires r == x * p % (W * W) && p == 2
    ensures 2 * x < W * W ==> r == 2 * x
  {
    if 2 * x < W * W {
      Small(2 * x, W * W);
    }
  }

  method NextPlace(d: U128, quot: U128) returns (d': U128, quot': U128)
    requires 2 * quot.Value() < W * W
    ensures d'.Value() == d.Value() / 2 && quot'.Value() == 2 * quot.Value() && quot'.Value() % 2 == 0
  {
    ShiftOne(d);
    ShiftOne(quot);
    d' := Shr(d, 1);
    quot' := Shl(quot, 1);
    IsEven(quot'.Value(), quot.Value());
  }

  lemma IsEven(x: nat, y: nat)
    requires x == 2 * y
    ensures x % 2 == 0
  {
  }

  /** slow_div_; the early return for a dividend with more leading zeros than the divisor is never taken. */
  method SlowDiv(dividend: U128, divisor: U128) returns (rest: U128, quot: U128)
    requires 0 < divisor.Value()
    ensures dividend.Value() == quot.Value() * divisor.Value() + rest.Value()
    ensures rest.Value() < divisor.Value()
  {
    rest, quot := dividend, U128(0, 0);
    if Less(rest, divisor) {
      return;
    }
    if rest.high == 0 {
      quot := U128(0, rest.low / divisor.low);
      rest := U128(rest.high, rest.low % divisor.low);
      return;
    }
    Aligned(rest, divisor);
    var zend, zsor := Clz(rest), Clz(divisor);
    assert zend <= zsor;
    rest, quot := LongDiv(dividend, divisor, zsor - zend);
  }

  method LongDiv(dividend: U128, divisor: U128, z: nat) returns (rest: U128, quot: U128)
    requires 0 < divisor.Value() && Shl(divisor, z).Value() == divisor.Value() * Pow2(z)
    requires dividend.Value() < 2 * (divisor.Value() * Pow2(z))
    ensures dividend.Value() == quot.Value() * divisor.Value() + rest.Value()
    ensures rest.Value() < divisor.Value()
  {
    ghost var v, u := dividend.Value(), divisor.Value();
    rest, quot := dividend, U128(0, 0);
    var zsor, d := z, Shl(divisor, z);
    while true
      invariant Dividing(v, u, zsor, d.Value(), rest.Value(), quot.Value())
      invariant rest.Value() < 2 * d.Value() && quot.Value() % 2 == 0
      decreases zsor
    {
      ghost var r, q := rest.Value(), quot.Value();
      rest, quot := Subtract(rest, quot, d);
      if d.Value() <= r {
        TakeOne(v, u, zsor, d.Value(), r, q);
      }
      if zsor == 0 {
        return;
      }
      HalveDivisor(v, u, zsor, d.Value(), rest.Value(), quot.Value());
      zsor := zsor - 1;
      d, quot := NextPlace(d, quot);
    }
  }

  datatype Quotient = Divided(value: U128) | DivideByZero

  method Div(dividend: U128, divisor: U128) returns (r: Quotient)
    ensures divisor.Value() == 0 ==> r == DivideByZero
    ensures divisor.Value() > 0 ==> r.Divided? && r.value.Value() == dividend.Value() / divisor.Value()
  {
    if divisor.high == 0 && divisor.low == 0 {
      return DivideByZero;
    }
    var rest, quot := SlowDiv(dividend, divisor);
    ModUnique(dividend.Value(), divisor.Value(), quot.Value(), rest.Value());
    return Divided(quot);
  }

  method Mod(dividend: U128, divisor: U128) returns (r: Quotient)
    ensures divisor.Value() == 0 ==> r == DivideByZero
    ensures divisor.Value() > 0 ==> r.Divided? && r.value.Value() == dividend.Value() % divisor.Value()
  {
    if divisor.high == 0 && divisor.low == 0 {
      return DivideByZero;
    }
    var rest, quot := SlowDiv(dividend, divisor);
    ModUnique(dividend.Value(), divisor.Value(), quot.Value(), rest.Value());
    return Divided(rest);
  }

  /** part_div: three digits to the base div. They make up the value exactly if the third fits a word. */
  method PartDiv(value: U128, div: Word) returns (high: Word, mid: Word, low: Word)
    requires 0 < div
    ensures low == value.Value() % div && mid == value.Value() / div % div && high == value.Value() / div / div % W
    ensures Recombined(high, mid, low, div) == value.Value() <==> value.Value() < W * (div * div)
  {
    var div128 := U128(0, div);
    assert div128.Value() == div;
    var rest, md := SlowDiv(value, div128);
    LowWord(rest, div);
    low := rest.low;
    var rest', hh := SlowDiv(md, div128);
    LowWord(rest', div);
    mid := rest'.low;
    LowWord(hh, div);
    high := hh.low;
    ThreeDigits(value.Value(), md.Value(), hh.Value(), hh.low, mid, low, div);
  }

  lemma LowWord(a: U128, div: Word)
    ensures a.Value() < div ==> a.Value() == a.low
    ensures a.low == a.Value() % W
  {
    ModUnique(a.Value(), W, a.high, a.low);
  }

  function Recombined(high: nat, mid: nat, low: nat, div: nat): (r: nat) {
    (high * div + mid) * div + low
  }

  lemma ThreeDigits(v: nat, m: nat, h: nat, high: nat, mid: nat, low: nat, div: nat)
    requires 0 < div && v == m * div + low && m == h * div + mid && low < div && mid < div && high == h % W
    ensures low == v % div && mid == v / div % div && high == v / div / div % W
    ensures Recombined(high, mid, low, div) == v <==> v < W * (div * div)
  {
    ModUnique(v, div, m, low);
    ModUnique(m, div, h, mid);
    RecombinedIff(v, h, high, mid, low, div);
  }

  lemma RecombinedIff(v: nat, h: nat, high: nat, mid: nat, low: nat, div: nat)
    requires 0 < div && v == Recombined(h, mid, low, div) && low < div && mid < div && high == h % W
    ensures Recombined(high, mid, low, div) == v <==> v < W * (div * div)
  {
    var rest := mid * div + low;
    var sq := div * div;
    assert rest < sq by { BelowProduct(mid, low, div, div); }
    Square(h, mid, low, div);
    Square(high, mid, low, div);
    FitsIff(h, high, sq, rest);
  }

  lemma FitsIff(h: nat, high: nat, sq: nat, rest: nat)
    requires rest < sq && high == h % W
    ensures high * sq + rest == h * sq + rest <==> h * sq + rest < W * sq
  {
    if h < W {
      MulAtLeast(W - h, sq);
      Distribute(W - h, h, sq);
    } else {
      Distribute(h - W, W, sq);
      NotNegative(h - W, sq);
      MulAtLeast(h - high, sq);
      Distribute(h - high, high, sq);
    }
  }

  lemma Square(h: nat, mid: nat, low: nat, div: nat)
    ensures Recombined(h, mid, low, div) == h * (div * div) + (mid * div + low)
  {
    Distribute(h * div, mid, div);
    Reassociate(h, div, div);
  }

  /** To the base 2 no three digits make up 2^127. */
  lemma PartDivLosesDigits(high: Word, mid: Word, low: Word)
    requires mid < 2 && low < 2
    ensures Recombined(high, mid, low, 2) != U128(0x8000_0000_0000_0000, 0).Value()
  {
    Square(high, mid, low, 2);
  }
}
