/** Rebuilding the database from the buckets of a list (src/catchup/ApplyBucketsWork.cpp,
    src/bucket/BucketApplicator.cpp). The database is a map; creating a key that is present, or updating
    or erasing one that is absent, is an inconsistency. */
module Replay {
  import opened Arithmetic
  import opened LedgerCmp
  import opened Buckets
  import opened Batches

  class Database {
    var m: Ledger
    var consistent: bool

    constructor ()
      ensures m == map[] && consistent
    {
      m, consistent := map[], true;
    }

    method Create(k: LedgerKey, v: int)
      modifies this
      ensures m == old(m)[k := v] && consistent == (old(consistent) && k !in old(m))
    {
      if k in m { consistent := false; }
      m := m[k := v];
    }

    method Update(k: LedgerKey, v: int)
      modifies this
      ensures m == old(m)[k := v] && consistent == (old(consistent) && k in old(m))
    {
      if k !in m { consistent := false; }
      m := m[k := v];
    }

    method Erase(k: LedgerKey)
      modifies this
      ensures m == old(m) - {k} && consistent == (old(consistent) && k in old(m))
    {
      if k !in m { consistent := false; }
      m := m - {k};
    }
  }

  /** Where an entry comes from: its level (last or not) and the lowest version seen up to its bucket. */
  datatype Origin = Origin(lastLevel: bool, minVersion: nat)

  /** The operation that the applicator chooses for an entry meets the state it needs. */
  predicate OperationFits(o: Origin, m: Ledger, c: Change) {
    if o.lastLevel && c.Live? then c.key !in m
    else if o.minVersion < FIRST_PROTOCOL_SUPPORTING_INITENTRY_AND_METAENTRY then true
    else if c.Init? then c.key !in m
    else c.key in m
  }

  datatype Item = Item(origin: Origin, change: Change)

  function Items(o: Origin, s: seq<Change>): (r: seq<Item>)
    ensures |r| == |s|
  {
    seq(|s|, i requires 0 <= i < |s| => Item(o, s[i]))
  }

  function ApplyItems(m: Ledger, s: seq<Item>): (r: Ledger)
    decreases |s|
  {
    if s == [] then m else ApplyItems(ApplyChange(m, s[0].change), s[1..])
  }

  predicate ItemsFit(m: Ledger, s: seq<Item>)
    decreases |s|
  {
    s == [] || (OperationFits(s[0].origin, m, s[0].change) && ItemsFit(ApplyChange(m, s[0].change), s[1..]))
  }

  lemma {:induction false} ItemsCompose(m: Ledger, a: seq<Item>, b: seq<Item>)
    ensures ApplyItems(m, a + b) == ApplyItems(ApplyItems(m, a), b)
    ensures ItemsFit(m, a + b) <==> ItemsFit(m, a) && ItemsFit(ApplyItems(m, a), b)
    decreases |a|
  {
    if a == [] {
      assert a + b == b;
    } else {
      assert (a + b)[1..] == a[1..] + b;
      ItemsCompose(ApplyChange(m, a[0].change), a[1..], b);
    }
  }

  /** Replays one bucket, a batch of entries at a time. */
  class BucketApplicator {
    const bucket: Bucket
    const maxVersion: nat
    const origin: Origin
    var pos: nat

    /** The constructor rejects buckets newer than the maximum protocol version. */
    constructor (bucket: Bucket, maxVersion: nat, origin: Origin)
      requires bucket.version <= maxVersion
      ensures this.bucket == bucket && this.maxVersion == maxVersion && this.origin == origin && pos == 0
    {
      this.bucket, this.maxVersion, this.origin, pos := bucket, maxVersion, origin, 0;
    }

    ghost predicate Valid()
      reads this
    {
      WellFormed(bucket) && bucket.version <= maxVersion && pos <= |bucket.changes|
    }

    /** The entries still to be applied. */
    ghost function Rest(): (r: seq<Item>)
      requires Valid()
      reads this
    {
      Items(origin, bucket.changes[pos..])
    }

    method ApplyEntry(e: Change, db: Database)
      requires FIRST_PROTOCOL_SUPPORTING_INITENTRY_AND_METAENTRY <= maxVersion || !e.Init?
      modifies db
      ensures db.m == ApplyChange(old(db.m), e)
      ensures db.consistent == (old(db.consistent) && OperationFits(origin, old(db.m), e))
    {
      if e.Live? || e.Init? {
        if origin.lastLevel && e.Live? {
          db.Create(e.key, e.body);
        } else if origin.minVersion < FIRST_PROTOCOL_SUPPORTING_INITENTRY_AND_METAENTRY {
          if e.key in db.m {
            db.Update(e.key, e.body);
          } else {
            db.Create(e.key, e.body);
          }
        } else if e.Live? {
          db.Update(e.key, e.body);
        } else {
          db.Create(e.key, e.body);
        }
      } else {
        if origin.minVersion < FIRST_PROTOCOL_SUPPORTING_INITENTRY_AND_METAENTRY {
          if e.key in db.m {
            db.Erase(e.key);
          }
        } else {
          db.Erase(e.key);
        }
      }
    }

    /** BucketApplicator::advance: applies the next entries, at most one more than the batch size, each once
        and in order. */
    method Advance(db: Database, batchSize: nat) returns (count: nat)
      requires Valid() && pos < |bucket.changes|
      modifies this, db
      ensures Valid() && old(pos) < pos && count == pos - old(pos) <= batchSize + 1
      ensures count <= batchSize ==> pos == |bucket.changes|
      ensures ApplyItems(db.m, Rest()) == ApplyItems(old(db.m), old(Rest()))
      ensures db.consistent && ItemsFit(db.m, Rest()) <==> old(db.consistent) && ItemsFit(old(db.m), old(Rest()))
    {
      count := 0;
      while pos < |bucket.changes|
        invariant Valid() && old(pos) <= pos && count == pos - old(pos) <= batchSize
        invariant ApplyItems(db.m, Rest()) == ApplyItems(old(db.m), old(Rest()))
        invariant db.consistent && ItemsFit(db.m, Rest()) <==> old(db.consistent) && ItemsFit(old(db.m), old(Rest()))
      {
        ghost var rest := Rest();
        ApplyEntry(bucket.changes[pos], db);
        pos := pos + 1;
        count := count + 1;
        assert Rest() == rest[1..];
        if count > batchSize {
          break;
        }
      }
    }
  }

  // ----- the levels, oldest first

  datatype StoredLevel = StoredLevel(curr: Bucket, snap: Bucket)

  /** Once applying has begun, or where the bucket differs from the local one. */
  predicate Applies(applying: bool, target: Bucket, local: Bucket) {
    applying || target != local
  }

  function SlotItems(last: bool, applies: bool, minVersion: nat, b: Bucket): (r: seq<Item>) {
    if applies then Items(Origin(last, minVersion), b.changes) else []
  }

  function SeenAfter(applies: bool, minVersion: nat, b: Bucket): (r: nat) {
    if applies then Min(minVersion, b.version) else minVersion
  }

  /** The entries of the levels below i, oldest first, from the first bucket on that differs. */
  function PlanFrom(target: seq<StoredLevel>, local: seq<StoredLevel>, i: nat, applying: bool,
                    minVersion: nat): (r: seq<Item>)
    requires i <= |target| == |local|
  {
    if i == 0 then []
    else
      var t, l, last := target[i - 1], local[i - 1], i == |target|;
      var a1 := Applies(applying, t.snap, l.snap);
      var v1 := SeenAfter(a1, minVersion, t.snap);
      var a2 := Applies(a1, t.curr, l.curr);
      var v2 := SeenAfter(a2, v1, t.curr);
      SlotItems(last, a1, v1, t.snap) + SlotItems(last, a2, v2, t.curr) + PlanFrom(target, local, i - 1, a2, v2)
  }

  lemma NothingBefore(items: seq<Item>)
    ensures [] + ([] + items) == items
  {
  }

  /** ApplyBucketsWork: the state machine that replays the levels of a stored list. */
  class ApplyBucketsWork {
    const target: seq<StoredLevel>
    const local: seq<StoredLevel>
    const maxVersion: nat
    const db: Database
    var level: nat
    var applying: bool
    var minVersion: nat
    var snapApplicator: BucketApplicator?
    var currApplicator: BucketApplicator?

    ghost predicate TargetOk() {
      && 0 < |target| == |local|
      && forall i :: 0 <= i < |target| ==>
           && WellFormed(target[i].curr) && target[i].curr.version <= maxVersion
           && WellFormed(target[i].snap) && target[i].snap.version <= maxVersion
    }

    ghost predicate Valid()
      reads this, snapApplicator, currApplicator
    {
      && TargetOk()
      && level < |target|
      && (!applying ==> snapApplicator == null && currApplicator == null)
      && (snapApplicator != null ==> snapApplicator.Valid())
      && (currApplicator != null ==> currApplicator.Valid())
      && (snapApplicator != null && currApplicator != null ==> snapApplicator != currApplicator)
    }

    ghost function RestOf(a: BucketApplicator?): (r: seq<Item>)
      requires a != null ==> a.Valid()
      reads a
    {
      if a == null then [] else a.Rest()
    }

    /** What is still to be applied. */
    ghost function Remaining(): (r: seq<Item>)
      requires Valid()
      reads this, snapApplicator, currApplicator
    {
      if snapApplicator == null && currApplicator == null then PlanFrom(target, local, level + 1, applying, minVersion)
      else RestOf(snapApplicator) + RestOf(currApplicator) + PlanFrom(target, local, level, applying, minVersion)
    }

    constructor (target: seq<StoredLevel>, local: seq<StoredLevel>, maxVersion: nat, db: Database)
      requires 0 < |target| == |local|
      requires forall i :: 0 <= i < |target| ==>
                 && WellFormed(target[i].curr) && target[i].curr.version <= maxVersion
                 && WellFormed(target[i].snap) && target[i].snap.version <= maxVersion
      ensures Valid() && this.db == db && this.target == target && this.local == local && level + 1 == |target|
      ensures snapApplicator == null && currApplicator == null
      ensures Remaining() == PlanFrom(target, local, |target|, false, UINT32_MAX)
    {
      this.target, this.local, this.maxVersion, this.db := target, local, maxVersion, db;
      level, applying, minVersion := |target| - 1, false, UINT32_MAX;
      snapApplicator, currApplicator := null, null;
    }

    /** startLevel. */
    method StartLevel()
      requires Valid() && snapApplicator == null && currApplicator == null
      modifies this
      ensures Valid() && level == old(level)
      ensures snapApplicator != null ==> fresh(snapApplicator)
      ensures currApplicator != null ==> fresh(currApplicator)
      ensures Started() == old(Remaining())
      ensures |RestOf(snapApplicator)| + |RestOf(currApplicator)| < old(Effort())
    {
      var t, l := target[level], local[level];
      if applying || t.snap != l.snap {
        minVersion := Min(minVersion, t.snap.version);
        snapApplicator := new BucketApplicator(t.snap, maxVersion, Origin(level + 1 == |target|, minVersion));
        applying := true;
      }
      if applying || t.curr != l.curr {
        minVersion := Min(minVersion, t.curr.version);
        currApplicator := new BucketApplicator(t.curr, maxVersion, Origin(level + 1 == |target|, minVersion));
        applying := true;
      }
      assert t.snap.changes[0..] == t.snap.changes && t.curr.changes[0..] == t.curr.changes;
      AppendAssoc(RestOf(snapApplicator), RestOf(currApplicator), PlanFrom(target, local, level, applying, minVersion));
    }

    /** isLevelComplete. */
    predicate IsLevelComplete()
      reads this
    {
      !applying || (snapApplicator == null && currApplicator == null)
    }

    /** What is still to be applied once the level has been started. */
    ghost function Started(): (r: seq<Item>)
      requires Valid()
      reads this, snapApplicator, currApplicator
    {
      RestOf(snapApplicator) + (RestOf(currApplicator) + PlanFrom(target, local, level, applying, minVersion))
    }

    lemma StartedIsRemaining()
      requires Valid() && (snapApplicator != null || currApplicator != null)
      ensures Started() == Remaining()
    {
      AppendAssoc(RestOf(snapApplicator), RestOf(currApplicator), PlanFrom(target, local, level, applying, minVersion));
    }

    method AdvanceSnap(batchSize: nat)
      requires Valid() && snapApplicator != null && snapApplicator.pos < |snapApplicator.bucket.changes|
      modifies snapApplicator, db
      ensures Valid() && |RestOf(snapApplicator)| < old(|RestOf(snapApplicator)|)
              && RestOf(currApplicator) == old(RestOf(currApplicator))
      ensures Leads(db.m, db.consistent, Started(), old(db.m), old(db.consistent), old(Started()))
    {
      ghost var rest, later := snapApplicator.Rest(),
        RestOf(currApplicator) + PlanFrom(target, local, level, applying, minVersion);
      var _ := snapApplicator.Advance(db, batchSize);
      LeadsAppend(db.m, db.consistent, snapApplicator.Rest(), old(db.m), old(db.consistent), rest, later);
    }

    method AdvanceCurr(batchSize: nat)
      requires Valid() && snapApplicator == null && currApplicator != null
               && currApplicator.pos < |currApplicator.bucket.changes|
      modifies currApplicator, db
      ensures Valid() && |RestOf(currApplicator)| < old(|RestOf(currApplicator)|)
      ensures Leads(db.m, db.consistent, Started(), old(db.m), old(db.consistent), old(Started()))
    {
      ghost var rest, plan := currApplicator.Rest(), PlanFrom(target, local, level, applying, minVersion);
      var _ := currApplicator.Advance(db, batchSize);
      LeadsAppend(db.m, db.consistent, currApplicator.Rest(), old(db.m), old(db.consistent), rest, plan);
      assert Started() == currApplicator.Rest() + plan;
      assert old(Started()) == rest + plan;
    }

    /** Dropping an applicator that has no entries left. */
    method DropSnap()
      requires Valid() && snapApplicator != null && snapApplicator.pos == |snapApplicator.bucket.changes|
      modifies this`snapApplicator
      ensures Valid() && snapApplicator == null && Started() == old(Started())
    {
      assert snapApplicator.Rest() == [];
      snapApplicator := null;
    }

    method DropCurr()
      requires Valid() && currApplicator != null && currApplicator.pos == |currApplicator.bucket.changes|
      modifies this`currApplicator
      ensures Valid() && currApplicator == null && Started() == old(Started())
    {
      assert currApplicator.Rest() == [];
      currApplicator := null;
    }

    /** onRun once the snap is done: applies a batch of entries of curr, goes to the next level, or is done. */
    method RunCurr(batchSize: nat) returns (done: bool)
      requires Valid() && snapApplicator == null
      modifies this`currApplicator, this`level, currApplicator, db
      ensures Valid() && (currApplicator != null ==> currApplicator == old(currApplicator))
      ensures Leads(db.m, db.consistent, if done then [] else Remaining(), old(db.m), old(db.consistent),
                    old(Started()))
      ensures !done ==> level < old(level) || (level == old(level) && Effort() < old(|RestOf(currApplicator)|))
    {
      if currApplicator != null {
        if currApplicator.pos < |currApplicator.bucket.changes| {
          AdvanceCurr(batchSize);
          StartedIsRemaining();
          return false;
        }
        DropCurr();
      }
      done := LeaveLevel();
    }

    /** Goes to the next level, or is done. */
    method LeaveLevel() returns (done: bool)
      requires Valid() && snapApplicator == null && currApplicator == null
      modifies this`level
      ensures Valid() && done == (old(level) == 0)
      ensures done ==> old(Started()) == []
      ensures !done ==> level < old(level) && Remaining() == old(Started())
    {
      ghost var plan := PlanFrom(target, local, level, applying, minVersion);
      NothingBefore(plan);
      assert Started() == plan;
      done := level == 0;
      if !done {
        level := level - 1;
      }
    }

    /** onRun on a started level. */
    method RunLevel(batchSize: nat) returns (done: bool)
      requires Valid()
      modifies this`snapApplicator, this`currApplicator, this`level, snapApplicator, currApplicator, db
      ensures Valid()
      ensures snapApplicator != null ==> snapApplicator == old(snapApplicator)
      ensures currApplicator != null ==> currApplicator == old(currApplicator)
      ensures Leads(db.m, db.consistent, if done then [] else Remaining(), old(db.m), old(db.consistent),
                    old(Started()))
      ensures !done ==> level < old(level) ||
                        (level == old(level) && Effort() < old(|RestOf(snapApplicator)| + |RestOf(currApplicator)|))
    {
      if snapApplicator != null {
        if snapApplicator.pos < |snapApplicator.bucket.changes| {
          AdvanceSnap(batchSize);
          StartedIsRemaining();
          return false;
        }
        DropSnap();
      }
      done := RunCurr(batchSize);
    }

    /** onRun: starts the next level, applies a batch of entries, or is done. Nothing is lost, repeated or
        reordered on the way. */
    method OnRun(batchSize: nat) returns (done: bool)
      requires Valid()
      modifies this, snapApplicator, currApplicator, db
      ensures Valid()
      ensures snapApplicator != null ==> snapApplicator == old(snapApplicator) || fresh(snapApplicator)
      ensures currApplicator != null ==> currApplicator == old(currApplicator) || fresh(currApplicator)
      ensures Leads(db.m, db.consistent, if done then [] else Remaining(), old(db.m), old(db.consistent),
                    old(Remaining()))
      ensures !done ==> level < old(level) || (level == old(level) && Effort() < old(Effort()))
    {
      if IsLevelComplete() {
        StartLevel();
      } else {
        StartedIsRemaining();
      }
      done := RunLevel(batchSize);
    }

    /** What a level still takes. */
    ghost function Effort(): (r: nat)
      requires Valid()
      reads this, snapApplicator, currApplicator
    {
      if snapApplicator == null && currApplicator == null then
        1 + |target[level].snap.changes| + |target[level].curr.changes|
      else |RestOf(snapApplicator)| + |RestOf(currApplicator)|
    }

    /** The work, run to its end: whatever the batch size, every entry of the stored list from the first
        differing bucket on is applied once, oldest first. */
    method Run(batchSize: nat)
      requires Valid()
      modifies this, snapApplicator, currApplicator, db
      ensures db.m == ApplyItems(old(db.m), old(Remaining()))
      ensures db.consistent <==> old(db.consistent) && ItemsFit(old(db.m), old(Remaining()))
    {
      var done := false;
      while !done
        invariant Valid()
        invariant snapApplicator != null ==> snapApplicator == old(snapApplicator) || fresh(snapApplicator)
        invariant currApplicator != null ==> currApplicator == old(currApplicator) || fresh(currApplicator)
        invariant Leads(db.m, db.consistent, if done then [] else Remaining(), old(db.m), old(db.consistent),
                        old(Remaining()))
        decreases !done, level, Effort()
      {
        done := OnRun(batchSize);
      }
    }
  }

  lemma AppendAssoc(a: seq<Item>, b: seq<Item>, c: seq<Item>)
    ensures a + b + c == a + (b + c)
  {
  }

  /** Applying `items` from `m` ends as applying `items0` from `m0` does. */
  ghost predicate Leads(m: Ledger, ok: bool, items: seq<Item>, m0: Ledger, ok0: bool, items0: seq<Item>) {
    && ApplyItems(m, items) == ApplyItems(m0, items0)
    && (ok && ItemsFit(m, items) <==> ok0 && ItemsFit(m0, items0))
  }

  lemma LeadsAppend(m: Ledger, ok: bool, items: seq<Item>, m0: Ledger, ok0: bool, items0: seq<Item>, later: seq<Item>)
    requires Leads(m, ok, items, m0, ok0, items0)
    ensures Leads(m, ok, items + later, m0, ok0, items0 + later)
  {
    ItemsCompose(m, items, later);
    ItemsCompose(m0, items0, later);
  }
}
