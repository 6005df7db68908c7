/** What merging means for a reader, and why the order of merges does not matter. */
module MergeLaws {
  import opened Arithmetic
  import opened LedgerCmp
  import opened Lifecycle
  import opened Wrappers
  import opened Buckets
  import opened Batches

  // ----- applying a bucket to a ledger

  function EffectOf(s: KeyState, c: Option<Change>): (r: KeyState) {
    if c.None? then s else if c.value.Dead? then Absent else Present(c.value.body)
  }

  lemma {:induction false} ApplySorted(m: Ledger, s: seq<Change>, k: LedgerKey)
    requires DistinctKeys(s)
    ensures StateOf(ApplyChanges(m, s), k) == EffectOf(StateOf(m, k), Find(s, k))
    decreases |s|
  {
    if s != [] {
      var m' := ApplyChange(m, s[0]);
      assert s[0].key != k ==> StateOf(m', k) == StateOf(m, k);
      if s[0].key == k {
        assert Find(s[1..], k).None?;
      }
      ApplySorted(m', s[1..], k);
    }
  }

  lemma SameStates(a: Ledger, b: Ledger)
    requires forall k :: StateOf(a, k) == StateOf(b, k)
    ensures a == b
  {
    assert forall k :: k in a <==> StateOf(a, k).Present?;
    assert forall k :: k in b <==> StateOf(b, k).Present?;
  }

  /** A deletion that the merge of two buckets comes to. */
  predicate Deletes(older: Bucket, newer: Bucket, k: LedgerKey) {
    var o, n := Get(older, k), Get(newer, k);
    !Clash(o, n) && Compose(o, n).Some? && Compose(o, n).value.Dead?
  }

  /** Applying the merge of two buckets to a ledger in which the keys the older one creates are absent
      is applying the older bucket and then the newer one; if deletions are dropped, exactly if none of
      the dropped ones was needed. */
  lemma MergeAppliesBoth(limit: nat, older: Bucket, newer: Bucket, keepDead: bool, m: Ledger)
    requires WellFormed(older) && WellFormed(newer)
    requires FIRST_PROTOCOL_SUPPORTING_INITENTRY_AND_METAENTRY <= MergeVersion(older, newer, []) <= limit
    requires forall k :: !Clash(Get(older, k), Get(newer, k))
    requires forall k :: Get(older, k).Some? && Get(older, k).value.Init? ==> k !in m
    ensures Merge(limit, older, newer, [], keepDead).Merged?
    ensures ApplyChanges(m, Merge(limit, older, newer, [], keepDead).bucket.changes)
            == ApplyChanges(ApplyChanges(m, older.changes), newer.changes)
            <==> keepDead || forall k :: Deletes(older, newer, k) ==> k !in m
  {
    MergeSucceeds(limit, older, newer, [], keepDead);
    var r := Merge(limit, older, newer, [], keepDead).bucket;
    var merged, both := ApplyChanges(m, r.changes), ApplyChanges(ApplyChanges(m, older.changes), newer.changes);
    forall k
      ensures StateOf(merged, k) == StateOf(both, k) <==> keepDead || !Deletes(older, newer, k) || k !in m
    {
      MergeAppliesBothAt(r, older, newer, keepDead, m, k);
    }
    if keepDead || forall k :: Deletes(older, newer, k) ==> k !in m {
      SameStates(merged, both);
    }
  }

  /** A dropped deletion that was needed: the merge leaves a key in the ledger that the two buckets delete. */
  lemma DroppedDeletionMatters(k: LedgerKey, v: int)
    ensures var older, newer, m := Bucket(11, []), Bucket(11, [Dead(k)]), map[k := v];
            var r := Merge(11, older, newer, [], false);
            && WellFormed(older) && WellFormed(newer) && r.Merged?
            && ApplyChanges(m, r.bucket.changes) != ApplyChanges(ApplyChanges(m, older.changes), newer.changes)
  {
    var older, newer := Bucket(11, []), Bucket(11, [Dead(k)]);
    MergeAppliesBoth(11, older, newer, false, map[k := v]);
    assert Deletes(older, newer, k);
  }

  lemma MergeAppliesBothAt(r: Bucket, older: Bucket, newer: Bucket, keepDead: bool, m: Ledger, k: LedgerKey)
    requires WellFormed(r) && WellFormed(older) && WellFormed(newer)
    requires !Clash(Get(older, k), Get(newer, k))
    requires FIRST_PROTOCOL_SUPPORTING_INITENTRY_AND_METAENTRY <= r.version
    requires Get(r, k) == Setting(r.version, [], keepDead).Emit(Compose(Get(older, k), Get(newer, k)))
    requires Get(older, k).Some? && Get(older, k).value.Init? ==> k !in m
    ensures StateOf(ApplyChanges(m, r.changes), k) ==
              StateOf(ApplyChanges(ApplyChanges(m, older.changes), newer.changes), k)
            <==> keepDead || !Deletes(older, newer, k) || k !in m
  {
    SortedIsDistinct(r.changes);
    SortedIsDistinct(older.changes);
    SortedIsDistinct(newer.changes);
    ApplySorted(m, r.changes, k);
    ApplySorted(m, older.changes, k);
    ApplySorted(ApplyChanges(m, older.changes), newer.changes, k);
  }

  // ----- associativity

  lemma {:induction false} SameEntries(a: seq<Change>, b: seq<Change>)
    requires Sorted(a) && Sorted(b)
    requires forall k :: Find(a, k) == Find(b, k)
    ensures a == b
  {
    assert a != [] ==> Find(a, a[0].key) == Find(b, a[0].key) == Some(a[0]);
    assert b != [] ==> Find(b, b[0].key) == Find(a, b[0].key) == Some(b[0]);
    if a != [] && b != [] {
      SameHead(a, b);
      SortedTail(a);
      SortedTail(b);
      forall k ensures Find(a[1..], k) == Find(b[1..], k) {
        assert Find(a, k) == Find(b, k);
        if k == a[0].key {
          AllAboveNotFound(k, a[1..]);
          AllAboveNotFound(k, b[1..]);
        }
      }
      SameEntries(a[1..], b[1..]);
    }
  }

  lemma SameHead(a: seq<Change>, b: seq<Change>)
    requires Sorted(a) && Sorted(b) && a != [] && b != []
    requires forall k :: Find(a, k) == Find(b, k)
    ensures a[0] == b[0]
  {
    var x, y := a[0].key, b[0].key;
    assert Find(b, x) == Find(a, x) == Some(a[0]);
    assert Find(a, y) == Find(b, y) == Some(b[0]);
    var i :| 0 <= i < |b| && b[i] == a[0];
    var j :| 0 <= j < |a| && a[j] == b[0];
    KeyLessTotal(x, y);
    KeyLessTotal(y, x);
  }

  /** Each key can take the three buckets' steps one after the other from some state. */
  ghost predicate LifecycleCompatible(a: Bucket, b: Bucket, c: Bucket) {
    forall k :: exists s :: Compatible(s, Get(a, k), Get(b, k), Get(c, k))
  }

  lemma EmitKeepsAll(version: nat, c: Option<Change>)
    ensures Setting(version, [], true).Emit(c) == c
  {
  }

  /** Merging pairwise, keeping deletions, holds per key the composition. */
  lemma MergePair(limit: nat, older: Bucket, newer: Bucket)
    requires WellFormed(older) && WellFormed(newer)
    requires FIRST_PROTOCOL_SUPPORTING_INITENTRY_AND_METAENTRY <= older.version <= limit
    requires FIRST_PROTOCOL_SUPPORTING_INITENTRY_AND_METAENTRY <= newer.version <= limit
    requires forall k :: !Clash(Get(older, k), Get(newer, k))
    ensures var r := Merge(limit, older, newer, [], true);
            && r.Merged? && WellFormed(r.bucket)
            && r.bucket.version == Max(older.version, newer.version)
            && forall k :: Get(r.bucket, k) == Compose(Get(older, k), Get(newer, k))
  {
    MergeSucceeds(limit, older, newer, [], true);
    var r := Merge(limit, older, newer, [], true).bucket;
    forall k ensures Get(r, k) == Compose(Get(older, k), Get(newer, k)) {
      EmitKeepsAll(r.version, Compose(Get(older, k), Get(newer, k)));
    }
  }

  lemma AssociativeAt(a: Bucket, b: Bucket, c: Bucket, k: LedgerKey)
    requires LifecycleCompatible(a, b, c)
    ensures var x, y, z := Get(a, k), Get(b, k), Get(c, k);
            && !Clash(x, y) && !Clash(y, z) && !Clash(Compose(x, y), z) && !Clash(x, Compose(y, z))
            && Compose(Compose(x, y), z) == Compose(x, Compose(y, z))
  {
    var s :| Compatible(s, Get(a, k), Get(b, k), Get(c, k));
    ComposeIsAssociative(s, Get(a, k), Get(b, k), Get(c, k));
  }

  /** Merging is associative, entry kinds and versions included: the order in which the schedule merges
      cannot change what a fully merged list contains. */
  lemma MergeIsAssociative(limit: nat, a: Bucket, b: Bucket, c: Bucket)
    requires WellFormed(a) && WellFormed(b) && WellFormed(c)
    requires FIRST_PROTOCOL_SUPPORTING_INITENTRY_AND_METAENTRY <= a.version <= limit
    requires FIRST_PROTOCOL_SUPPORTING_INITENTRY_AND_METAENTRY <= b.version <= limit
    requires FIRST_PROTOCOL_SUPPORTING_INITENTRY_AND_METAENTRY <= c.version <= limit
    requires LifecycleCompatible(a, b, c)
    ensures var ab, bc := Merge(limit, a, b, [], true), Merge(limit, b, c, [], true);
            && ab.Merged? && bc.Merged?
            && Merge(limit, ab.bucket, c, [], true).Merged?
            && Merge(limit, ab.bucket, c, [], true) == Merge(limit, a, bc.bucket, [], true)
  {
    forall k ensures !Clash(Get(a, k), Get(b, k)) && !Clash(Get(b, k), Get(c, k)) {
      AssociativeAt(a, b, c, k);
    }
    MergePair(limit, a, b);
    MergePair(limit, b, c);
    var ab, bc := Merge(limit, a, b, [], true).bucket, Merge(limit, b, c, [], true).bucket;
    forall k ensures !Clash(Get(ab, k), Get(c, k)) && !Clash(Get(a, k), Get(bc, k)) {
      AssociativeAt(a, b, c, k);
    }
    MergePair(limit, ab, c);
    MergePair(limit, a, bc);
    var l, r := Merge(limit, ab, c, [], true).bucket, Merge(limit, a, bc, [], true).bucket;
    forall k ensures Find(l.changes, k) == Find(r.changes, k) {
      AssociativeAt(a, b, c, k);
      assert Get(l, k) == Get(r, k);
    }
    SameEntries(l.changes, r.changes);
  }
}
