/** The batch of one closed ledger: the bucket Bucket::fresh makes of it, and what it does to the
    ledger. */
module Batches {
  import opened LedgerCmp
  import opened Lifecycle
  import opened Wrappers
  import opened Buckets

  /** Created and updated entries, deleted keys, and the protocol the ledger closed under. */
  datatype Batch = Batch(protocol: nat, init: seq<(LedgerKey, int)>, live: seq<(LedgerKey, int)>, dead: seq<LedgerKey>)

  /** The entries of a batch in the order convertToBucketEntry collects them. */
  function Changes(b: Batch): (r: seq<Change>) {
    var useInit := FIRST_PROTOCOL_SUPPORTING_INITENTRY_AND_METAENTRY <= b.protocol;
    seq(|b.init|, i requires 0 <= i < |b.init| =>
      if useInit then Init(b.init[i].0, b.init[i].1) else Live(b.init[i].0, b.init[i].1))
    + seq(|b.live|, i requires 0 <= i < |b.live| => Live(b.live[i].0, b.live[i].1))
    + seq(|b.dead|, i requires 0 <= i < |b.dead| => Dead(b.dead[i]))
  }

  function Insert(c: Change, s: seq<Change>): (r: seq<Change>) {
    if s == [] || !KeyLess(s[0].key, c.key) then [c] + s else [s[0]] + Insert(c, s[1..])
  }

  /** The entries in key order. */
  function SortChanges(s: seq<Change>): (r: seq<Change>) {
    if s == [] then [] else Insert(s[0], SortChanges(s[1..]))
  }

  /** Bucket::fresh; the assertion on the sorted entries aborts on two entries for one key. */
  function Fresh(b: Batch): (r: MergeResult) {
    var s := SortChanges(Changes(b));
    if Sorted(s) then Merged(Bucket(WrittenVersion(b.protocol), s)) else Failed(DuplicateKey)
  }

  predicate DistinctKeys(s: seq<Change>) {
    forall i, j :: 0 <= i < j < |s| ==> s[i].key != s[j].key
  }

  lemma {:induction false} InsertKeepsMultiset(c: Change, s: seq<Change>)
    ensures multiset(Insert(c, s)) == multiset{c} + multiset(s)
  {
    if s != [] && KeyLess(s[0].key, c.key) {
      InsertKeepsMultiset(c, s[1..]);
      assert s == [s[0]] + s[1..];
    }
  }

  lemma {:induction false} SortKeepsMultiset(s: seq<Change>)
    ensures multiset(SortChanges(s)) == multiset(s)
  {
    if s != [] {
      SortKeepsMultiset(s[1..]);
      InsertKeepsMultiset(s[0], SortChanges(s[1..]));
      assert s == [s[0]] + s[1..];
    }
  }

  lemma {:induction false} InsertSorts(c: Change, s: seq<Change>)
    requires Sorted(s)
    requires forall i :: 0 <= i < |s| ==> s[i].key != c.key
    ensures Sorted(Insert(c, s))
    ensures forall k :: KeyLess(k, c.key) && AllAbove(k, s) ==> AllAbove(k, Insert(c, s))
  {
    if s == [] {
    } else if !KeyLess(s[0].key, c.key) {
      KeyLessTotal(s[0].key, c.key);
      HeadIsLeast([c], s);
      SortedCons(c, s);
    } else {
      SortedTail(s);
      InsertSorts(c, s[1..]);
      SortedCons(s[0], Insert(c, s[1..]));
      forall k | KeyLess(k, c.key) && AllAbove(k, s) ensures AllAbove(k, Insert(c, s)) {
        assert AllAbove(k, s[1..]);
      }
    }
  }

  lemma {:induction false} FindInsert(c: Change, s: seq<Change>, k: LedgerKey)
    requires forall i :: 0 <= i < |s| ==> s[i].key != c.key
    ensures Find(Insert(c, s), k) == if c.key == k then Some(c) else Find(s, k)
  {
    if s == [] || !KeyLess(s[0].key, c.key) {
      assert ([c] + s)[1..] == s;
    } else {
      FindInsert(c, s[1..], k);
      assert ([s[0]] + Insert(c, s[1..]))[1..] == Insert(c, s[1..]);
    }
  }

  /** On distinct keys sorting succeeds and loses nothing. */
  lemma {:induction false} SortDistinct(s: seq<Change>)
    requires DistinctKeys(s)
    ensures Sorted(SortChanges(s))
    ensures forall k :: Find(SortChanges(s), k) == Find(s, k)
  {
    if s != [] {
      var rest := SortChanges(s[1..]);
      SortDistinct(s[1..]);
      forall i | 0 <= i < |rest| ensures rest[i].key != s[0].key {
        SortKeepsMultiset(s[1..]);
        assert rest[i] in multiset(s[1..]);
        var j :| 0 <= j < |s[1..]| && s[1..][j] == rest[i];
        assert s[j + 1] == rest[i];
      }
      InsertSorts(s[0], rest);
      forall k ensures Find(SortChanges(s), k) == Find(s, k) {
        FindInsert(s[0], rest, k);
      }
    }
  }

  lemma SortedIsDistinct(s: seq<Change>)
    requires Sorted(s)
    ensures DistinctKeys(s)
  {
    forall i, j | 0 <= i < j < |s| ensures s[i].key != s[j].key {
      KeyLessTotal(s[i].key, s[j].key);
    }
  }

  function Keys(s: seq<Change>): (r: seq<LedgerKey>) {
    seq(|s|, i requires 0 <= i < |s| => s[i].key)
  }

  lemma {:induction false} CountKeys(s: seq<Change>, k: LedgerKey)
    ensures DistinctKeys(s) ==> multiset(Keys(s))[k] <= 1
    ensures multiset(Keys(SortChanges(s))) == multiset(Keys(s))
  {
    if s != [] {
      CountKeys(s[1..], k);
      assert Keys(s) == [s[0].key] + Keys(s[1..]);
      InsertKeys(s[0], SortChanges(s[1..]));
      if DistinctKeys(s) && k == s[0].key {
        assert k !in Keys(s[1..]);
      }
    }
  }

  lemma {:induction false} InsertKeys(c: Change, s: seq<Change>)
    ensures multiset(Keys(Insert(c, s))) == multiset{c.key} + multiset(Keys(s))
  {
    if s == [] || !KeyLess(s[0].key, c.key) {
      assert Keys([c] + s) == [c.key] + Keys(s);
    } else {
      InsertKeys(c, s[1..]);
      assert Keys([s[0]] + Insert(c, s[1..])) == [s[0].key] + Keys(Insert(c, s[1..]));
      assert Keys(s) == [s[0].key] + Keys(s[1..]);
    }
  }

  lemma RepeatedKeyCountsTwice(s: seq<Change>, i: nat, j: nat)
    requires i < j < |s| && s[i].key == s[j].key
    ensures multiset(Keys(s))[s[i].key] >= 2
  {
    var k, ks := s[i].key, Keys(s);
    assert ks == ks[..j] + [ks[j]] + ks[j + 1..];
    assert ks[..j][i] == k;
    assert multiset(ks) == multiset(ks[..j]) + multiset{k} + multiset(ks[j + 1..]);
  }

  lemma DistinctFromCounts(s: seq<Change>)
    requires forall k :: multiset(Keys(s))[k] <= 1
    ensures DistinctKeys(s)
  {
    forall i, j | 0 <= i < j < |s| ensures s[i].key != s[j].key {
      if s[i].key == s[j].key {
        RepeatedKeyCountsTwice(s, i, j);
        assert false;
      }
    }
  }

  /** Bucket::fresh accepts a batch exactly when no key occurs twice in it; its bucket is well formed
      and says about each key what the batch says. */
  lemma FreshIsTheBatch(b: Batch)
    ensures Fresh(b).Merged? <==> DistinctKeys(Changes(b))
    ensures Fresh(b).Merged? ==>
              && WellFormed(Fresh(b).bucket)
              && Fresh(b).bucket.version == WrittenVersion(b.protocol)
              && forall k :: Get(Fresh(b).bucket, k) == Find(Changes(b), k)
  {
    var s := Changes(b);
    if DistinctKeys(s) {
      SortDistinct(s);
      forall i | 0 <= i < |SortChanges(s)| && WrittenVersion(b.protocol) == 0
        ensures !SortChanges(s)[i].Init?
      {
        SortKeepsMultiset(s);
        assert SortChanges(s)[i] in multiset(s);
      }
    } else if Fresh(b).Merged? {
      SortedIsDistinct(SortChanges(s));
      forall k ensures multiset(Keys(s))[k] <= 1 {
        CountKeys(SortChanges(s), k);
        CountKeys(s, k);
      }
      DistinctFromCounts(s);
    }
  }

  // ----- the ledger as a map

  type Ledger = map<LedgerKey, int>

  function ApplyChange(m: Ledger, c: Change): (r: Ledger) {
    match c
    case Init(k, v) => m[k := v]
    case Live(k, v) => m[k := v]
    case Dead(k) => m - {k}
  }

  function ApplyChanges(m: Ledger, s: seq<Change>): (r: Ledger)
    decreases |s|
  {
    if s == [] then m else ApplyChanges(ApplyChange(m, s[0]), s[1..])
  }

  function StateOf(m: Ledger, k: LedgerKey): (r: KeyState) {
    if k in m then Present(m[k]) else Absent
  }

  /** A batch a ledger can close with: from protocol 11 on, no key twice, created keys absent,
      updated and deleted keys present. */
  predicate Closes(m: Ledger, b: Batch) {
    && FIRST_PROTOCOL_SUPPORTING_INITENTRY_AND_METAENTRY <= b.protocol
    && DistinctKeys(Changes(b))
    && (forall i :: 0 <= i < |b.init| ==> b.init[i].0 !in m)
    && (forall i :: 0 <= i < |b.live| ==> b.live[i].0 in m)
    && (forall i :: 0 <= i < |b.dead| ==> b.dead[i] in m)
  }

  lemma {:induction false} ApplyChangesKeywise(m: Ledger, s: seq<Change>, k: LedgerKey)
    requires DistinctKeys(s)
    requires Step(Some(StateOf(m, k)), Find(s, k)).Some?
    ensures Step(Some(StateOf(m, k)), Find(s, k)) == Some(StateOf(ApplyChanges(m, s), k))
    decreases |s|
  {
    if s != [] {
      var m' := ApplyChange(m, s[0]);
      assert s[0].key != k ==> StateOf(m', k) == StateOf(m, k);
      if s[0].key == k {
        assert Find(s[1..], k).None?;
      }
      ApplyChangesKeywise(m', s[1..], k);
    }
  }

  /** A batch is one lifecycle step on each key. */
  lemma BatchSteps(m: Ledger, b: Batch, k: LedgerKey)
    requires Closes(m, b)
    ensures Step(Some(StateOf(m, k)), Find(Changes(b), k)) == Some(StateOf(ApplyChanges(m, Changes(b)), k))
  {
    var s := Changes(b);
    var f := Find(s, k);
    if f.Some? {
      var i :| 0 <= i < |s| && s[i] == f.value;
      if i < |b.init| {
        assert s[i] == Init(b.init[i].0, b.init[i].1);
      } else if i < |b.init| + |b.live| {
        var j := i - |b.init|;
        assert s[i] == Live(b.live[j].0, b.live[j].1);
      } else {
        var j := i - |b.init| - |b.live|;
        assert s[i] == Dead(b.dead[j]);
      }
    }
    ApplyChangesKeywise(m, s, k);
  }
}
