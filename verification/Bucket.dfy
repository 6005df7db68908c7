/** Buckets and what merging them means (src/bucket/Bucket.cpp).

    A bucket is what BucketInputIterator delivers of its file: the protocol version of the
    leading metadata record (0 when there is none) and the entries that follow. The bucket with
    neither is the empty bucket, which has no file and the zero hash. A hash stands for the
    content it was computed from, so buckets with equal hashes are equal buckets. */
module Buckets {
  import opened Arithmetic
  import opened LedgerCmp
  import opened Lifecycle
  import opened Wrappers

  const FIRST_PROTOCOL_SUPPORTING_INITENTRY_AND_METAENTRY := 11
  const FIRST_PROTOCOL_SHADOWS_REMOVED := 12

  datatype Bucket = Bucket(version: nat, changes: seq<Change>)

  const EMPTY := Bucket(0, [])

  function AsRecords(changes: seq<Change>): (r: seq<BucketEntry>) {
    seq(|changes|, i requires 0 <= i < |changes| => Entry(changes[i]))
  }

  /** The records of the bucket's file. */
  function Records(b: Bucket): (r: seq<BucketEntry>) {
    (if b.version == 0 then [] else [Meta(b.version)]) + AsRecords(b.changes)
  }

  predicate Sorted(s: seq<Change>) {
    forall i, j :: 0 <= i < j < |s| ==> KeyLess(s[i].key, s[j].key)
  }

  /** What every bucket written by BucketOutputIterator satisfies. */
  predicate WellFormed(b: Bucket) {
    && Sorted(b.changes)
    && (b.version == 0 || FIRST_PROTOCOL_SUPPORTING_INITENTRY_AND_METAENTRY <= b.version)
    && (b.version == 0 ==> forall i :: 0 <= i < |b.changes| ==> !b.changes[i].Init?)
  }

  function Find(s: seq<Change>, k: LedgerKey): (r: Option<Change>)
    ensures r.Some? ==> r.value in s && r.value.key == k
    ensures r.None? ==> forall i :: 0 <= i < |s| ==> s[i].key != k
  {
    if s == [] then None
    else if s[0].key == k then Some(s[0])
    else Find(s[1..], k)
  }

  function Get(b: Bucket, k: LedgerKey): (r: Option<Change>)
    ensures r.Some? ==> r.value.key == k
  {
    Find(b.changes, k)
  }

  predicate Shadowed(shadows: seq<Bucket>, k: LedgerKey) {
    exists i :: 0 <= i < |shadows| && Get(shadows[i], k).Some?
  }

  datatype MergeError = VersionExceedsMax | ShadowsNotSupported | IllegalEntry | Malformed | DuplicateKey

  datatype MergeResult = Merged(bucket: Bucket) | Failed(error: MergeError)

  datatype Entries = Entries(changes: seq<Change>) | Rejected(error: MergeError)

  /** The settings of one run of Bucket::merge, fixed before the first entry is read. */
  datatype Setting = Setting(version: nat, shadows: seq<Bucket>, keepDead: bool) {
    predicate KeepsLifecycleEntries() {
      FIRST_PROTOCOL_SUPPORTING_INITENTRY_AND_METAENTRY <= version
    }

    /** checkProtocolLegality. */
    predicate Legal(c: Change) {
      KeepsLifecycleEntries() || !c.Init?
    }

    /** maybePut followed by the tombstone filter of BucketOutputIterator::put. */
    predicate Puts(c: Change) {
      && ((KeepsLifecycleEntries() && (c.Init? || c.Dead?)) || !Shadowed(shadows, c.key))
      && (keepDead || !c.Dead?)
    }

    function Emit(c: Option<Change>): (r: Option<Change>) {
      if c.Some? && !Puts(c.value) then None else c
    }
  }

  /** The highest version among the shadows that predate the removal of shadows. */
  function ShadowVersion(shadows: seq<Bucket>): (r: nat)
    ensures r < FIRST_PROTOCOL_SHADOWS_REMOVED
  {
    if shadows == [] then 0
    else
      var v := shadows[|shadows| - 1].version;
      Max(ShadowVersion(shadows[..|shadows| - 1]), if v < FIRST_PROTOCOL_SHADOWS_REMOVED then v else 0)
  }

  /** calculateMergeProtocolVersion. */
  function MergeVersion(older: Bucket, newer: Bucket, shadows: seq<Bucket>): (r: nat) {
    Max(Max(older.version, newer.version), ShadowVersion(shadows))
  }

  function Prepend(c: Option<Change>, rest: Entries): (r: Entries) {
    if rest.Rejected? || c.None? then rest else Entries([c.value] + rest.changes)
  }

  /** The entries of a merge, in the order in which the two inputs are read. */
  function MergeChanges(s: Setting, o: seq<Change>, n: seq<Change>): (r: Entries)
    decreases |o| + |n|
  {
    if o == [] && n == [] then Entries([])
    else if n == [] || (o != [] && KeyLess(o[0].key, n[0].key)) then
      if !s.Legal(o[0]) then Rejected(IllegalEntry)
      else Prepend(s.Emit(Some(o[0])), MergeChanges(s, o[1..], n))
    else if o == [] || KeyLess(n[0].key, o[0].key) then
      if !s.Legal(n[0]) then Rejected(IllegalEntry)
      else Prepend(s.Emit(Some(n[0])), MergeChanges(s, o, n[1..]))
    else if !s.Legal(o[0]) || !s.Legal(n[0]) then Rejected(IllegalEntry)
    else if Clash(Some(o[0]), Some(n[0])) then Rejected(Malformed)
    else Prepend(s.Emit(Compose(Some(o[0]), Some(n[0]))), MergeChanges(s, o[1..], n[1..]))
  }

  /** The version a bucket written at a given protocol version carries. */
  function WrittenVersion(protocol: nat): (v: nat) {
    if FIRST_PROTOCOL_SUPPORTING_INITENTRY_AND_METAENTRY <= protocol then protocol else 0
  }

  /** Bucket::merge. */
  function Merge(maxVersion: nat, older: Bucket, newer: Bucket, shadows: seq<Bucket>,
                 keepDead: bool): (r: MergeResult) {
    var version := MergeVersion(older, newer, shadows);
    if maxVersion < version then Failed(VersionExceedsMax)
    else if FIRST_PROTOCOL_SHADOWS_REMOVED <= version && shadows != [] then Failed(ShadowsNotSupported)
    else match MergeChanges(Setting(version, shadows, keepDead), older.changes, newer.changes)
      case Rejected(e) => Failed(e)
      case Entries(changes) => Merged(Bucket(WrittenVersion(version), changes))
  }

  predicate AllAbove(k: LedgerKey, s: seq<Change>) {
    forall i :: 0 <= i < |s| ==> KeyLess(k, s[i].key)
  }

  lemma AllAboveNotFound(k: LedgerKey, s: seq<Change>)
    requires AllAbove(k, s)
    ensures Find(s, k).None?
  {
    if Find(s, k).Some? {
      var i :| 0 <= i < |s| && s[i] == Find(s, k).value;
      KeyLessTotal(k, s[i].key);
    }
  }

  lemma AllAboveWeaken(j: LedgerKey, k: LedgerKey, s: seq<Change>)
    requires KeyLess(j, k) && AllAbove(k, s)
    ensures AllAbove(j, s)
  {
    forall i | 0 <= i < |s| ensures KeyLess(j, s[i].key) {
      KeyLessTransitive(j, k, s[i].key);
    }
  }

  lemma SortedTail(s: seq<Change>)
    requires Sorted(s) && s != []
    ensures Sorted(s[1..]) && AllAbove(s[0].key, s[1..])
  {
  }

  lemma SortedCons(c: Change, s: seq<Change>)
    requires Sorted(s) && AllAbove(c.key, s)
    ensures Sorted([c] + s)
  {
  }

  /** The result lies above everything both inputs lie above. */
  lemma {:induction false} MergeChangesAbove(s: Setting, o: seq<Change>, n: seq<Change>, k: LedgerKey)
    requires AllAbove(k, o) && AllAbove(k, n)
    requires MergeChanges(s, o, n).Entries?
    ensures AllAbove(k, MergeChanges(s, o, n).changes)
    decreases |o| + |n|
  {
    if o == [] && n == [] {
    } else if n == [] || (o != [] && KeyLess(o[0].key, n[0].key)) {
      MergeChangesAbove(s, o[1..], n, k);
    } else if o == [] || KeyLess(n[0].key, o[0].key) {
      MergeChangesAbove(s, o, n[1..], k);
    } else {
      MergeChangesAbove(s, o[1..], n[1..], k);
    }
  }

  lemma HeadIsLeast(o: seq<Change>, n: seq<Change>)
    requires Sorted(o) && Sorted(n) && o != []
    requires n == [] || KeyLess(o[0].key, n[0].key)
    ensures AllAbove(o[0].key, o[1..]) && AllAbove(o[0].key, n)
  {
    if n != [] {
      SortedTail(n);
      AllAboveWeaken(o[0].key, n[0].key, n[1..]);
      assert n == [n[0]] + n[1..];
    }
  }

  lemma {:induction false} MergeChangesSorted(s: Setting, o: seq<Change>, n: seq<Change>)
    requires Sorted(o) && Sorted(n)
    requires MergeChanges(s, o, n).Entries?
    ensures Sorted(MergeChanges(s, o, n).changes)
    decreases |o| + |n|
  {
    if o == [] && n == [] {
    } else if n == [] || (o != [] && KeyLess(o[0].key, n[0].key)) {
      HeadIsLeast(o, n);
      MergeChangesSorted(s, o[1..], n);
      MergeChangesAbove(s, o[1..], n, o[0].key);
    } else if o == [] || KeyLess(n[0].key, o[0].key) {
      HeadIsLeast(n, o);
      MergeChangesSorted(s, o, n[1..]);
      MergeChangesAbove(s, o, n[1..], n[0].key);
    } else {
      KeyLessTotal(o[0].key, n[0].key);
      SortedTail(o);
      SortedTail(n);
      MergeChangesSorted(s, o[1..], n[1..]);
      MergeChangesAbove(s, o[1..], n[1..], n[0].key);
    }
  }

  lemma FindPrepend(c: Option<Change>, rest: Entries, k: LedgerKey)
    requires rest.Entries?
    ensures Find(Prepend(c, rest).changes, k) ==
            if c.Some? && c.value.key == k then c else Find(rest.changes, k)
  {
    if c.Some? {
      assert ([c.value] + rest.changes)[1..] == rest.changes;
    }
  }

  /** The one-pass merge is keywise composition followed by elision. */
  lemma {:induction false} MergeChangesKeywise(s: Setting, o: seq<Change>, n: seq<Change>, k: LedgerKey)
    requires Sorted(o) && Sorted(n)
    requires MergeChanges(s, o, n).Entries?
    ensures !Clash(Find(o, k), Find(n, k))
    ensures Find(MergeChanges(s, o, n).changes, k) == s.Emit(Compose(Find(o, k), Find(n, k)))
    decreases |o| + |n|
  {
    if o == [] && n == [] {
    } else if n == [] || (o != [] && KeyLess(o[0].key, n[0].key)) {
      HeadIsLeast(o, n);
      MergeChangesKeywise(s, o[1..], n, k);
      FindPrepend(s.Emit(Some(o[0])), MergeChanges(s, o[1..], n), k);
      AllAboveNotFound(o[0].key, o[1..]);
      AllAboveNotFound(o[0].key, n);
    } else if o == [] || KeyLess(n[0].key, o[0].key) {
      HeadIsLeast(n, o);
      MergeChangesKeywise(s, o, n[1..], k);
      FindPrepend(s.Emit(Some(n[0])), MergeChanges(s, o, n[1..]), k);
      AllAboveNotFound(n[0].key, n[1..]);
      AllAboveNotFound(n[0].key, o);
    } else {
      KeyLessTotal(o[0].key, n[0].key);
      SortedTail(o);
      SortedTail(n);
      MergeChangesKeywise(s, o[1..], n[1..], k);
      FindPrepend(s.Emit(Compose(Some(o[0]), Some(n[0]))), MergeChanges(s, o[1..], n[1..]), k);
      AllAboveNotFound(o[0].key, o[1..]);
      AllAboveNotFound(n[0].key, n[1..]);
    }
  }

  predicate AllLegal(s: Setting, changes: seq<Change>) {
    forall i :: 0 <= i < |changes| ==> s.Legal(changes[i])
  }

  /** No clash on any key, no rejection. */
  lemma {:induction false} MergeChangesAccepts(s: Setting, o: seq<Change>, n: seq<Change>)
    requires Sorted(o) && Sorted(n)
    requires AllLegal(s, o) && AllLegal(s, n)
    requires forall k :: !Clash(Find(o, k), Find(n, k))
    ensures MergeChanges(s, o, n).Entries?
    decreases |o| + |n|
  {
    if o == [] && n == [] {
    } else if n == [] || (o != [] && KeyLess(o[0].key, n[0].key)) {
      HeadIsLeast(o, n);
      AllAboveNotFound(o[0].key, o[1..]);
      forall k ensures !Clash(Find(o[1..], k), Find(n, k)) {
        assert !Clash(Find(o, k), Find(n, k));
      }
      MergeChangesAccepts(s, o[1..], n);
    } else if o == [] || KeyLess(n[0].key, o[0].key) {
      HeadIsLeast(n, o);
      AllAboveNotFound(n[0].key, n[1..]);
      forall k ensures !Clash(Find(o, k), Find(n[1..], k)) {
        assert !Clash(Find(o, k), Find(n, k));
      }
      MergeChangesAccepts(s, o, n[1..]);
    } else {
      KeyLessTotal(o[0].key, n[0].key);
      SortedTail(o);
      SortedTail(n);
      AllAboveNotFound(o[0].key, o[1..]);
      AllAboveNotFound(n[0].key, n[1..]);
      assert !Clash(Find(o, o[0].key), Find(n, o[0].key));
      forall k ensures !Clash(Find(o[1..], k), Find(n[1..], k)) {
        assert !Clash(Find(o, k), Find(n, k));
      }
      MergeChangesAccepts(s, o[1..], n[1..]);
    }
  }

  /** Legal entries are rejected for one reason only. */
  lemma {:induction false} RejectedMeansMalformed(s: Setting, o: seq<Change>, n: seq<Change>)
    requires AllLegal(s, o) && AllLegal(s, n)
    requires MergeChanges(s, o, n).Rejected?
    ensures MergeChanges(s, o, n).error == Malformed
    decreases |o| + |n|
  {
    if n == [] || (o != [] && KeyLess(o[0].key, n[0].key)) {
      RejectedMeansMalformed(s, o[1..], n);
    } else if o == [] || KeyLess(n[0].key, o[0].key) {
      RejectedMeansMalformed(s, o, n[1..]);
    } else if !Clash(Some(o[0]), Some(n[0])) {
      RejectedMeansMalformed(s, o[1..], n[1..]);
    }
  }

  /** No key has two entries that cannot follow one another. */
  ghost predicate NeverClash(older: Bucket, newer: Bucket) {
    forall k :: !Clash(Get(older, k), Get(newer, k))
  }

  /** The shadows that the version of a merge still supports. */
  predicate ShadowsSupported(version: nat, shadows: seq<Bucket>) {
    version < FIRST_PROTOCOL_SHADOWS_REMOVED || shadows == []
  }

  lemma InputsAreLegal(older: Bucket, newer: Bucket, shadows: seq<Bucket>, keepDead: bool)
    requires WellFormed(older) && WellFormed(newer)
    ensures var s := Setting(MergeVersion(older, newer, shadows), shadows, keepDead);
            AllLegal(s, older.changes) && AllLegal(s, newer.changes)
  {
  }

  lemma MergedKeywise(s: Setting, older: Bucket, newer: Bucket, r: Bucket)
    requires WellFormed(older) && WellFormed(newer) && AllLegal(s, older.changes) && AllLegal(s, newer.changes)
    requires MergeChanges(s, older.changes, newer.changes) == Entries(r.changes)
             && r.version == WrittenVersion(s.version)
    ensures NeverClash(older, newer) && WellFormed(r)
    ensures forall k :: Get(r, k) == s.Emit(Compose(Get(older, k), Get(newer, k)))
  {
    forall k
      ensures !Clash(Get(older, k), Get(newer, k)) && Get(r, k) == s.Emit(Compose(Get(older, k), Get(newer, k)))
    {
      MergeChangesKeywise(s, older.changes, newer.changes, k);
    }
    MergeChangesSorted(s, older.changes, newer.changes);
    forall i | 0 <= i < |r.changes| ensures s.Legal(r.changes[i]) {
      FindAt(r.changes, i);
      var k := r.changes[i].key;
      assert Get(r, k) == s.Emit(Compose(Get(older, k), Get(newer, k)));
    }
  }

  /** When Bucket::merge throws what, for all well-formed inputs of any protocol; otherwise its result is well
      formed and holds, per key, the composition of the inputs unless that is elided. */
  lemma MergeOutcome(limit: nat, older: Bucket, newer: Bucket, shadows: seq<Bucket>, keepDead: bool)
    requires WellFormed(older) && WellFormed(newer)
    ensures var version, r := MergeVersion(older, newer, shadows), Merge(limit, older, newer, shadows, keepDead);
            && (r == Failed(VersionExceedsMax) <==> limit < version)
            && (r == Failed(ShadowsNotSupported) <==> version <= limit && !ShadowsSupported(version, shadows))
            && (r == Failed(Malformed) <==>
                  version <= limit && ShadowsSupported(version, shadows) && !NeverClash(older, newer))
            && (r.Merged? <==> version <= limit && ShadowsSupported(version, shadows) && NeverClash(older, newer))
            && (r.Merged? ==>
                  && WellFormed(r.bucket) && r.bucket.version == WrittenVersion(version)
                  && forall k :: Get(r.bucket, k) ==
                       Setting(version, shadows, keepDead).Emit(Compose(Get(older, k), Get(newer, k))))
  {
    var version, r := MergeVersion(older, newer, shadows), Merge(limit, older, newer, shadows, keepDead);
    var s := Setting(version, shadows, keepDead);
    InputsAreLegal(older, newer, shadows, keepDead);
    var entries := MergeChanges(s, older.changes, newer.changes);
    if entries.Rejected? {
      RejectedMeansMalformed(s, older.changes, newer.changes);
      if NeverClash(older, newer) {
        forall k ensures !Clash(Find(older.changes, k), Find(newer.changes, k)) {
          assert !Clash(Get(older, k), Get(newer, k));
        }
        MergeChangesAccepts(s, older.changes, newer.changes);
        assert false;
      }
    } else {
      MergedKeywise(s, older, newer, Bucket(WrittenVersion(version), entries.changes));
    }
  }

  /** A merge from protocol 11 on whose inputs never clash does not throw; its result is well formed and
      holds, per key, the composition of the inputs unless that is elided. */
  lemma MergeSucceeds(limit: nat, older: Bucket, newer: Bucket, shadows: seq<Bucket>, keepDead: bool)
    requires WellFormed(older) && WellFormed(newer)
    requires FIRST_PROTOCOL_SUPPORTING_INITENTRY_AND_METAENTRY <= MergeVersion(older, newer, shadows) <= limit
    requires MergeVersion(older, newer, shadows) < FIRST_PROTOCOL_SHADOWS_REMOVED || shadows == []
    requires forall k :: !Clash(Get(older, k), Get(newer, k))
    ensures var r := Merge(limit, older, newer, shadows, keepDead);
            && r.Merged?
            && WellFormed(r.bucket)
            && r.bucket.version == MergeVersion(older, newer, shadows)
            && forall k :: Get(r.bucket, k) ==
                 Setting(r.bucket.version, shadows, keepDead).Emit(Compose(Get(older, k), Get(newer, k)))
  {
    MergeOutcome(limit, older, newer, shadows, keepDead);
  }

  lemma FindAt(s: seq<Change>, i: nat)
    requires Sorted(s) && i < |s|
    ensures Find(s, s[i].key) == Some(s[i])
  {
    var f := Find(s, s[i].key).value;
    var j :| 0 <= j < |s| && s[j] == f;
    KeyLessTotal(s[i].key, s[j].key);
    KeyLessTotal(s[j].key, s[i].key);
  }
}
