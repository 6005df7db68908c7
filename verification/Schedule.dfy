/** The spill schedule of the bucket list (src/bucket/BucketList.cpp): level i absorbs the snap
    of level i-1 at every multiple of half the size of level i-1. The number of levels is `n`.
    Ledger numbers are natural numbers: a ledger number plus a half level is taken to fit the
    32 bits the source gives it. */
module Schedule {
  import opened Arithmetic

  function Pow4(i: nat): (r: nat)
    ensures 0 < r
  {
    if i == 0 then 1 else 4 * Pow4(i - 1)
  }

  /** 1 << (2 * (level + 1)). */
  function LevelSize(level: nat): (r: nat)
    ensures 4 <= r
  {
    4 * Pow4(level)
  }

  /** levelSize >> 1. */
  function LevelHalf(level: nat): (r: nat)
    ensures 2 <= r && LevelSize(level) == 2 * r
  {
    2 * Pow4(level)
  }

  /** v & ~(m - 1), for m a power of two: v rounded down to a multiple of m. */
  function Mask(v: nat, m: nat): (r: nat)
    requires 0 < m
    ensures r <= v < r + m
  {
    v - v % m
  }

  predicate LevelShouldSpill(n: nat, ledger: nat, level: nat) {
    && level + 1 != n
    && (ledger == Mask(ledger, LevelHalf(level)) || ledger == Mask(ledger, LevelSize(level)))
  }

  predicate ShouldMergeWithEmptyCurr(n: nat, ledger: nat, level: nat) {
    && level != 0
    && LevelShouldSpill(n, Mask(ledger, LevelHalf(level - 1)) + LevelHalf(level - 1), level)
  }

  predicate KeepDeadEntries(n: nat, level: nat) {
    level + 1 < n
  }

  // ----- what the schedule guarantees

  /** A level spills exactly at the multiples of its half size; the last level never does. */
  lemma SpillsAtMultiplesOfHalf(n: nat, ledger: nat, level: nat)
    ensures LevelShouldSpill(n, ledger, level) <==> level + 1 != n && ledger % LevelHalf(level) == 0
  {
    if ledger == Mask(ledger, LevelSize(level)) {
      MultipleOfMultiple(ledger, LevelHalf(level), 2);
    }
  }

  /** Spills are nested: a level that spills is fed by a level that spills at the same ledger. */
  lemma SpillsAreNested(n: nat, ledger: nat, level: nat)
    requires 0 < level < n && LevelShouldSpill(n, ledger, level)
    ensures LevelShouldSpill(n, ledger, level - 1)
  {
    SpillsAtMultiplesOfHalf(n, ledger, level);
    SpillsAtMultiplesOfHalf(n, ledger, level - 1);
    assert LevelHalf(level) == 4 * LevelHalf(level - 1);
    MultipleOfMultiple(ledger, LevelHalf(level - 1), 4);
  }

  lemma MaskStep(ledger: nat, m: nat)
    requires 0 < m
    ensures (ledger + 1) % m == 0 ==> Mask(ledger, m) + m == ledger + 1
    ensures (ledger + 1) % m != 0 ==> Mask(ledger + 1, m) == Mask(ledger, m)
  {
    var q, r := ledger / m, ledger % m;
    assert ledger == q * m + r;
    if r + 1 < m {
      ModUnique(ledger + 1, m, q, r + 1);
    } else {
      assert ledger + 1 == (q + 1) * m + 0 by { assert (q + 1) * m == q * m + m; }
      ModUnique(ledger + 1, m, q + 1, 0);
    }
  }

  /** The empty-curr rule decides, when a merge is started, whether the level will itself have
      been snapped by the time the merge is promoted; and it keeps its answer until then. */
  lemma EmptyCurrRuleForeseesSnap(n: nat, ledger: nat, level: nat)
    requires 0 < level < n
    ensures LevelShouldSpill(n, ledger + 1, level - 1) ==>
              (ShouldMergeWithEmptyCurr(n, ledger, level) <==> LevelShouldSpill(n, ledger + 1, level))
    ensures !LevelShouldSpill(n, ledger + 1, level - 1) ==>
              (ShouldMergeWithEmptyCurr(n, ledger + 1, level) <==> ShouldMergeWithEmptyCurr(n, ledger, level))
  {
    SpillsAtMultiplesOfHalf(n, ledger + 1, level - 1);
    MaskStep(ledger, LevelHalf(level - 1));
  }

  lemma SpillLedgers(n: nat, ledger: nat, i: nat)
    requires 0 < ledger && i + 1 < n
    ensures LevelShouldSpill(n, ledger, i) ==> ledger == LevelHalf(i) || LevelSize(i) <= ledger
    ensures !LevelShouldSpill(n, ledger, i) ==> ledger != LevelHalf(i) && ledger != LevelSize(i)
  {
    SpillsAtMultiplesOfHalf(n, ledger, i);
    MultiplesOf(ledger, LevelHalf(i));
  }

  /** The first ledger at which the curr of level i holds anything. */
  function CurrSince(i: nat): (r: nat) {
    if i == 0 then 1 else LevelSize(i - 1)
  }

  lemma {:induction false} HalvesGrow(i: nat, j: nat)
    requires i <= j
    ensures LevelHalf(i) <= LevelHalf(j)
  {
    if i < j {
      HalvesGrow(i, j - 1);
    }
  }
}
