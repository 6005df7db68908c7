/** Replaying or loading the buckets of a list gives back the ledger the list represents
    (src/catchup/ApplyBucketsWork.cpp, src/bucket/BucketManagerImpl.cpp). */
module ReplayList {
  import opened Arithmetic
  import opened LedgerCmp
  import opened Lifecycle
  import opened Wrappers
  import opened Buckets
  import opened Batches
  import opened BucketIterators
  import opened MergeLaws
  import opened BucketListState
  import opened BucketListLawful
  import opened BucketListRun
  import opened Replay

  /** The currs and snaps of a list, as a history archive state stores them. */
  function Stored(ls: Levels): (r: seq<StoredLevel>)
    requires SlotsOk(ls)
    ensures |r| == |ls|
  {
    seq(|ls|, i requires 0 <= i < |ls| => StoredLevel(ls[i].curr.bucket, ls[i].snap.bucket))
  }

  function EmptyStored(n: nat): (r: seq<StoredLevel>)
    ensures |r| == n
  {
    seq(n, _ => StoredLevel(EMPTY, EMPTY))
  }

  // ----- one bucket

  lemma {:induction false} ItemsApply(m: Ledger, o: Origin, s: seq<Change>)
    ensures ApplyItems(m, Items(o, s)) == ApplyChanges(m, s)
    decreases |s|
  {
    if s != [] {
      assert Items(o, s)[1..] == Items(o, s[1..]);
      ItemsApply(ApplyChange(m, s[0]), o, s[1..]);
    }
  }

  /** On distinct keys every operation finds the state the bucket began with. */
  lemma {:induction false} ItemsFitDistinct(m: Ledger, o: Origin, s: seq<Change>)
    requires DistinctKeys(s) && forall i :: 0 <= i < |s| ==> OperationFits(o, m, s[i])
    ensures ItemsFit(m, Items(o, s))
    decreases |s|
  {
    if s != [] {
      var m' := ApplyChange(m, s[0]);
      assert Items(o, s)[1..] == Items(o, s[1..]);
      forall i | 0 <= i < |s[1..]| ensures OperationFits(o, m', s[1..][i]) {
        assert s[1..][i] == s[i + 1];
        assert OperationFits(o, m, s[i + 1]);
      }
      ItemsFitDistinct(m', o, s[1..]);
    }
  }

  /** What a bucket does to a ledger, key by key. */
  ghost predicate Moves(m: Ledger, b: Bucket, m': Ledger) {
    forall k :: StateOf(m', k) == EffectOf(StateOf(m, k), Get(b, k))
  }

  lemma BucketMoves(m: Ledger, b: Bucket)
    requires WellFormed(b)
    ensures Moves(m, b, ApplyChanges(m, b.changes))
  {
    SortedIsDistinct(b.changes);
    forall k ensures StateOf(ApplyChanges(m, b.changes), k) == EffectOf(StateOf(m, k), Get(b, k)) {
      ApplySorted(m, b.changes, k);
    }
  }

  lemma GetAt(b: Bucket, i: nat)
    requires WellFormed(b) && i < |b.changes|
    ensures Get(b, b.changes[i].key) == Some(b.changes[i])
  {
    FindAt(b.changes, i);
  }

  /** A bucket whose steps are legal fits, whatever versions were seen. */
  lemma SlotFits(m: Ledger, o: Origin, b: Bucket)
    requires WellFormed(b) && !o.lastLevel
    requires forall k :: Step(Some(StateOf(m, k)), Get(b, k)).Some?
    ensures ItemsFit(m, Items(o, b.changes))
  {
    SortedIsDistinct(b.changes);
    forall i | 0 <= i < |b.changes| ensures OperationFits(o, m, b.changes[i]) {
      GetAt(b, i);
      assert Step(Some(StateOf(m, b.changes[i].key)), Get(b, b.changes[i].key)).Some?;
    }
    ItemsFitDistinct(m, o, b.changes);
  }

  predicate NoDeletions(b: Bucket) {
    forall i :: 0 <= i < |b.changes| ==> !b.changes[i].Dead?
  }

  /** On the last level nothing is present before. */
  lemma BottomFits(o: Origin, b: Bucket)
    requires WellFormed(b) && o.lastLevel
    requires NoDeletions(b)
    ensures ItemsFit(map[], Items(o, b.changes))
  {
    SortedIsDistinct(b.changes);
    ItemsFitDistinct(map[], o, b.changes);
  }

  // ----- all levels

  /** The ledger has each key in the state it has after the curr of level i. */
  ghost predicate UpTo(ls: Levels, i: nat, m: Ledger)
    requires i < |ls|
  {
    forall k :: Some(StateOf(m, k)) == Before(ls, i, k)
  }

  /** From the state after level i, the slots of level i-1 make legal steps to the state after that level. */
  lemma LevelMoves(ls: Levels, ledger: nat, i: nat, m: Ledger)
    requires Lawful(ls, ledger) && 0 < i < |ls| && UpTo(ls, i, m)
    ensures var m1 := ApplyChanges(m, ls[i - 1].snap.bucket.changes);
            var m2 := ApplyChanges(m1, ls[i - 1].curr.bucket.changes);
            && (forall k :: Step(Some(StateOf(m, k)), Get(ls[i - 1].snap.bucket, k)).Some?)
            && (forall k :: Step(Some(StateOf(m1, k)), Get(ls[i - 1].curr.bucket, k)).Some?)
            && UpTo(ls, i - 1, m2)
  {
    var snap, curr := ls[i - 1].snap.bucket, ls[i - 1].curr.bucket;
    var m1 := ApplyChanges(m, snap.changes);
    var m2 := ApplyChanges(m1, curr.changes);
    BucketMoves(m, snap);
    BucketMoves(m1, curr);
    forall k
      ensures Step(Some(StateOf(m, k)), Get(snap, k)) == Some(StateOf(m1, k))
      ensures Step(Some(StateOf(m1, k)), Get(curr, k)) == Some(StateOf(m2, k)) == Before(ls, i - 1, k)
    {
      assert State(ls, k).Some?;
      assert Some(StateOf(m, k)) == Before(ls, i, k);
      BeforeDefined(ls, i - 1, k);
      LegalMove(StateOf(m, k), StateOf(m1, k), At(ls[i - 1].snap, k));
      LegalMove(StateOf(m1, k), StateOf(m2, k), At(ls[i - 1].curr, k));
    }
  }

  lemma LegalMove(s: KeyState, s': KeyState, c: Option<Change>)
    requires s' == EffectOf(s, c)
    ensures Step(Some(s), c).Some? ==> Step(Some(s), c) == Some(s')
  {
  }

  /** Skipping a bucket that equals the empty local one skips no entries. */
  lemma SkippedIsEmpty(last: bool, applying: bool, minVersion: nat, b: Bucket)
    ensures SlotItems(last, Applies(applying, b, EMPTY), minVersion, b) == Items(Origin(last, minVersion), b.changes)
  {
  }

  /** One level of the plan against an empty local list. */
  lemma PlanUnfolds(target: seq<StoredLevel>, i: nat, applying: bool, minVersion: nat)
      returns (o1: Origin, o2: Origin, applying': bool, minVersion': nat)
    requires 0 < i <= |target|
    ensures o1.lastLevel == o2.lastLevel == (i == |target|)
    ensures PlanFrom(target, EmptyStored(|target|), i, applying, minVersion)
            == Items(o1, target[i - 1].snap.changes) + Items(o2, target[i - 1].curr.changes)
               + PlanFrom(target, EmptyStored(|target|), i - 1, applying', minVersion')
  {
    var t, last := target[i - 1], i == |target|;
    var a1 := Applies(applying, t.snap, EMPTY);
    var v1 := SeenAfter(a1, minVersion, t.snap);
    applying' := Applies(a1, t.curr, EMPTY);
    minVersion' := SeenAfter(applying', v1, t.curr);
    o1, o2 := Origin(last, v1), Origin(last, minVersion');
    SkippedIsEmpty(last, applying, v1, t.snap);
    SkippedIsEmpty(last, a1, minVersion', t.curr);
  }

  lemma LevelReplays(ls: Levels, ledger: nat, i: nat, m: Ledger, o1: Origin, o2: Origin)
    requires Lawful(ls, ledger) && 0 < i < |ls| && UpTo(ls, i, m) && !o1.lastLevel && !o2.lastLevel
    ensures var snap, curr := ls[i - 1].snap.bucket.changes, ls[i - 1].curr.bucket.changes;
            var m1 := ApplyChanges(m, snap);
            && ItemsFit(m, Items(o1, snap)) && ItemsFit(m1, Items(o2, curr))
            && UpTo(ls, i - 1, ApplyChanges(m1, curr))
  {
    LevelMoves(ls, ledger, i, m);
    SlotFits(m, o1, ls[i - 1].snap.bucket);
    SlotFits(ApplyChanges(m, ls[i - 1].snap.bucket.changes), o2, ls[i - 1].curr.bucket);
  }

  /** What remains of the plan of a list below level i. */
  function ListPlan(ls: Levels, i: nat, applying: bool, minVersion: nat): (r: seq<Item>)
    requires SlotsOk(ls) && i <= |ls|
  {
    PlanFrom(Stored(ls), EmptyStored(|ls|), i, applying, minVersion)
  }

  lemma ListPlanUnfolds(ls: Levels, i: nat, applying: bool, minVersion: nat)
      returns (o1: Origin, o2: Origin, rest: seq<Item>, applying': bool, minVersion': nat)
    requires SlotsOk(ls) && 0 < i <= |ls|
    ensures o1.lastLevel == o2.lastLevel == (i == |ls|)
    ensures rest == ListPlan(ls, i - 1, applying', minVersion')
    ensures ListPlan(ls, i, applying, minVersion)
            == Items(o1, ls[i - 1].snap.bucket.changes) + Items(o2, ls[i - 1].curr.bucket.changes) + rest
  {
    o1, o2, applying', minVersion' := PlanUnfolds(Stored(ls), i, applying, minVersion);
    rest := ListPlan(ls, i - 1, applying', minVersion');
  }

  lemma {:induction false} PlanReplays(ls: Levels, ledger: nat, i: nat, applying: bool, minVersion: nat, m: Ledger)
    requires Lawful(ls, ledger) && i < |ls| && UpTo(ls, i, m)
    ensures ItemsFit(m, ListPlan(ls, i, applying, minVersion))
    ensures UpTo(ls, 0, ApplyItems(m, ListPlan(ls, i, applying, minVersion)))
    decreases i
  {
    if i > 0 {
      var snap, curr := ls[i - 1].snap.bucket.changes, ls[i - 1].curr.bucket.changes;
      var o1, o2, rest, a, v := ListPlanUnfolds(ls, i, applying, minVersion);
      LevelReplays(ls, ledger, i, m, o1, o2);
      PlanReplays(ls, ledger, i - 1, a, v, ApplyChanges(ApplyChanges(m, snap), curr));
      ChainUpTo(ls, m, o1, snap, o2, curr, rest);
    }
  }

  lemma ChainUpTo(ls: Levels, m: Ledger, o1: Origin, s: seq<Change>, o2: Origin, c: seq<Change>, rest: seq<Item>)
    requires 0 < |ls|
    requires var m1 := ApplyChanges(m, s);
             var m2 := ApplyChanges(m1, c);
             && ItemsFit(m, Items(o1, s)) && ItemsFit(m1, Items(o2, c)) && ItemsFit(m2, rest)
             && UpTo(ls, 0, ApplyItems(m2, rest))
    ensures var all := Items(o1, s) + Items(o2, c) + rest;
            ItemsFit(m, all) && UpTo(ls, 0, ApplyItems(m, all))
  {
    Chain(m, o1, s, o2, c, rest);
  }

  lemma Chain(m: Ledger, o1: Origin, s: seq<Change>, o2: Origin, c: seq<Change>, rest: seq<Item>)
    ensures var m1 := ApplyChanges(m, s);
            var m2 := ApplyChanges(m1, c);
            var all := Items(o1, s) + Items(o2, c) + rest;
            && ApplyItems(m, all) == ApplyItems(m2, rest)
            && (ItemsFit(m, all) <==> ItemsFit(m, Items(o1, s)) && ItemsFit(m1, Items(o2, c)) && ItemsFit(m2, rest))
  {
    ItemsCompose(m, Items(o1, s) + Items(o2, c), rest);
    ItemsCompose(m, Items(o1, s), Items(o2, c));
    ItemsApply(m, o1, s);
    ItemsApply(ApplyChanges(m, s), o2, c);
  }

  lemma SameAsBefore(ls: Levels, m: Ledger, m': Ledger, ledger: nat, protocol: nat)
    requires Represents(ls, ledger, m, protocol) && UpTo(ls, 0, m')
    ensures m' == m
  {
    forall k ensures StateOf(m', k) == StateOf(m, k) {
      StateFromBefore(ls, 0, k);
      assert Some(StateOf(m', k)) == Before(ls, 0, k);
      assert State(ls, k) == Some(StateOf(m, k));
    }
    SameStates(m', m);
  }

  lemma BottomReached(ls: Levels, ledger: nat)
    requires Lawful(ls, ledger)
    ensures ls[|ls| - 1].snap.bucket.changes == []
    ensures UpTo(ls, |ls| - 1, ApplyChanges(map[], ls[|ls| - 1].curr.bucket.changes))
    ensures NoDeletions(ls[|ls| - 1].curr.bucket)
  {
    var b := ls[|ls| - 1].curr.bucket;
    assert ShapeAt(ls, ledger, |ls| - 1);
    BucketMoves(map[], b);
    forall k ensures Some(StateOf(ApplyChanges(map[], b.changes), k)) == Before(ls, |ls| - 1, k) {
    }
    forall i | 0 <= i < |b.changes| ensures !b.changes[i].Dead? {
      GetAt(b, i);
      assert BottomKey(ls, b.changes[i].key);
    }
  }

  lemma WholePlanReplays(ls: Levels, ledger: nat)
    requires Lawful(ls, ledger)
    ensures ItemsFit(map[], ListPlan(ls, |ls|, false, UINT32_MAX))
    ensures UpTo(ls, 0, ApplyItems(map[], ListPlan(ls, |ls|, false, UINT32_MAX)))
  {
    var curr := ls[|ls| - 1].curr.bucket;
    var o1, o2, rest, a, v := ListPlanUnfolds(ls, |ls|, false, UINT32_MAX);
    BottomReached(ls, ledger);
    BottomFits(o2, curr);
    PlanReplays(ls, ledger, |ls| - 1, a, v, ApplyChanges(map[], curr.changes));
    ChainUpTo(ls, map[], o1, [], o2, curr.changes, rest);
  }

  /** Replaying a list that represents a ledger into an empty database, starting from nothing, ends in that
      ledger, and every create, update and erase finds its key as it must. */
  lemma ReplayRebuildsLedger(ls: Levels, ledger: nat, m: Ledger, protocol: nat)
    requires Represents(ls, ledger, m, protocol)
    ensures var plan := PlanFrom(Stored(ls), EmptyStored(|ls|), |ls|, false, UINT32_MAX);
            ItemsFit(map[], plan) && ApplyItems(map[], plan) == m
  {
    WholePlanReplays(ls, ledger);
    SameAsBefore(ls, m, ApplyItems(map[], ListPlan(ls, |ls|, false, UINT32_MAX)), ledger, protocol);
  }

  lemma VersionsBounded(ls: Levels, ledger: nat, i: nat)
    requires Lawful(ls, ledger) && i < |ls|
    ensures ls[i].curr.bucket.version <= ls[0].curr.bucket.version
    ensures ls[i].snap.bucket.version <= ls[0].curr.bucket.version
  {
    YoungerIsNewer(ls, ledger, i);
    assert VersionsAt(ls, i);
  }

  /** The buckets of such a list can be replayed under the protocol it has reached. */
  lemma StoredCanBeReplayed(ls: Levels, ledger: nat, m: Ledger, protocol: nat, i: nat)
    requires Represents(ls, ledger, m, protocol) && i < |ls|
    ensures WellFormed(Stored(ls)[i].curr) && Stored(ls)[i].curr.version <= protocol
    ensures WellFormed(Stored(ls)[i].snap) && Stored(ls)[i].snap.version <= protocol
  {
    VersionsBounded(ls, ledger, i);
  }

  /** Catching up from nothing: the whole plan is applied to an empty database. */
  method ReplayIntoEmptyDatabase(target: seq<StoredLevel>, maxVersion: nat, batchSize: nat) returns (db: Database)
    requires 0 < |target|
    requires forall i :: 0 <= i < |target| ==>
               && WellFormed(target[i].curr) && target[i].curr.version <= maxVersion
               && WellFormed(target[i].snap) && target[i].snap.version <= maxVersion
    ensures var plan := PlanFrom(target, EmptyStored(|target|), |target|, false, UINT32_MAX);
            db.m == ApplyItems(map[], plan) && (db.consistent <==> ItemsFit(map[], plan))
  {
    db := new Database();
    var local := EmptyStored(|target|);
    ghost var plan := PlanFrom(target, local, |target|, false, UINT32_MAX);
    var work := new ApplyBucketsWork(target, local, maxVersion, db);
    assert work.Remaining() == plan && db.m == map[] && db.consistent;
    work.Run(batchSize);
    assert db.m == ApplyItems(map[], plan);
  }

  // ----- loading the complete ledger state

  /** Loading a bucket into a map: a deletion must find its key. */
  function LoadChanges(m: Ledger, s: seq<Change>): (r: Option<Ledger>)
    decreases |s|
  {
    if s == [] then Some(m)
    else if s[0].Dead? && s[0].key !in m then None
    else LoadChanges(ApplyChange(m, s[0]), s[1..])
  }

  /** loadEntriesFromBucket: fails exactly if a deletion does not find its key. */
  method LoadEntriesFromBucket(b: Bucket, m: Ledger) returns (r: Option<Ledger>)
    requires WellFormed(b)
    ensures r == LoadChanges(m, b.changes)
  {
    var it := Open(b);
    var loaded := m;
    ghost var n := 0;
    assert b.changes[0..] == b.changes;
    while it.entry.Some?
      invariant n <= |b.changes| && Delivers(it, b, n)
      invariant LoadChanges(loaded, b.changes[n..]) == LoadChanges(m, b.changes)
      decreases |b.changes| - n
    {
      var e := it.entry.value;
      assert b.changes[n..][0] == e && b.changes[n..][1..] == b.changes[n + 1..];
      if e.Live? || e.Init? {
        loaded := loaded[e.key := e.body];
      } else {
        if e.key !in loaded {
          return None;
        }
        loaded := loaded - {e.key};
      }
      Advance(it, b, n);
      n := n + 1;
    }
    return Some(loaded);
  }

  /** The levels below i, oldest first. */
  function LoadFrom(target: seq<StoredLevel>, i: nat, m: Ledger): (r: Option<Ledger>)
    requires i <= |target|
  {
    if i == 0 then Some(m)
    else
      var m1 := LoadChanges(m, target[i - 1].snap.changes);
      if m1.None? then None
      else
        var m2 := LoadChanges(m1.value, target[i - 1].curr.changes);
        if m2.None? then None else LoadFrom(target, i - 1, m2.value)
  }

  lemma {:induction false} LoadSucceeds(m: Ledger, s: seq<Change>)
    requires DistinctKeys(s) && forall i :: 0 <= i < |s| && s[i].Dead? ==> s[i].key in m
    ensures LoadChanges(m, s) == Some(ApplyChanges(m, s))
    decreases |s|
  {
    if s != [] {
      var m' := ApplyChange(m, s[0]);
      forall i | 0 <= i < |s[1..]| && s[1..][i].Dead? ensures s[1..][i].key in m' {
        assert s[1..][i] == s[i + 1];
      }
      LoadSucceeds(m', s[1..]);
    }
  }

  lemma LoadLegal(m: Ledger, b: Bucket)
    requires WellFormed(b) && forall k :: Step(Some(StateOf(m, k)), Get(b, k)).Some?
    ensures LoadChanges(m, b.changes) == Some(ApplyChanges(m, b.changes))
  {
    SortedIsDistinct(b.changes);
    forall i | 0 <= i < |b.changes| && b.changes[i].Dead? ensures b.changes[i].key in m {
      GetAt(b, i);
      assert Step(Some(StateOf(m, b.changes[i].key)), Get(b, b.changes[i].key)).Some?;
    }
    LoadSucceeds(m, b.changes);
  }

  lemma {:induction false} LoadLevels(ls: Levels, ledger: nat, i: nat, m: Ledger)
    requires Lawful(ls, ledger) && i < |ls| && UpTo(ls, i, m)
    ensures LoadFrom(Stored(ls), i, m).Some?
    ensures UpTo(ls, 0, LoadFrom(Stored(ls), i, m).value)
    decreases i
  {
    if i > 0 {
      var snap, curr := ls[i - 1].snap.bucket, ls[i - 1].curr.bucket;
      LevelMoves(ls, ledger, i, m);
      LoadLegal(m, snap);
      LoadLegal(ApplyChanges(m, snap.changes), curr);
      LoadLevels(ls, ledger, i - 1, ApplyChanges(ApplyChanges(m, snap.changes), curr.changes));
    }
  }

  lemma LoadLast(target: seq<StoredLevel>, n: nat, m: Ledger)
    requires 0 < n <= |target| && target[n - 1].snap.changes == []
    requires LoadChanges(map[], target[n - 1].curr.changes) == Some(m)
    ensures LoadFrom(target, n, map[]) == LoadFrom(target, n - 1, m)
  {
  }

  /** Loading the complete state of a list that represents a ledger never fails and gives that ledger. */
  lemma {:induction false} LoadGivesLedger(ls: Levels, ledger: nat, m: Ledger, protocol: nat)
    requires Represents(ls, ledger, m, protocol)
    ensures LoadFrom(Stored(ls), |ls|, map[]) == Some(m)
  {
    var n := |ls|;
    var curr := ls[n - 1].curr.bucket;
    BottomReached(ls, ledger);
    SortedIsDistinct(curr.changes);
    LoadSucceeds(map[], curr.changes);
    LoadLast(Stored(ls), n, ApplyChanges(map[], curr.changes));
    LoadLevels(ls, ledger, n - 1, ApplyChanges(map[], curr.changes));
    SameAsBefore(ls, m, LoadFrom(Stored(ls), n - 1, ApplyChanges(map[], curr.changes)).value, ledger, protocol);
  }

  /** BucketManagerImpl::loadCompleteLedgerState: levels from the oldest, snap before curr, skipping
      buckets without a file. */
  method LoadCompleteLedgerState(target: seq<StoredLevel>) returns (r: Option<Ledger>)
    requires forall i :: 0 <= i < |target| ==> WellFormed(target[i].curr) && WellFormed(target[i].snap)
    ensures r == LoadFrom(target, |target|, map[])
  {
    var loaded: Ledger := map[];
    var i := |target|;
    while i > 0
      invariant 0 <= i <= |target| && LoadFrom(target, i, loaded) == LoadFrom(target, |target|, map[])
    {
      if target[i - 1].snap != EMPTY {
        var m1 := LoadEntriesFromBucket(target[i - 1].snap, loaded);
        if m1.None? { return None; }
        loaded := m1.value;
      }
      if target[i - 1].curr != EMPTY {
        var m2 := LoadEntriesFromBucket(target[i - 1].curr, loaded);
        if m2.None? { return None; }
        loaded := m2.value;
      }
      i := i - 1;
    }
    return Some(loaded);
  }
}
