/** The store of buckets and the cache of running and finished merges (src/bucket/BucketManagerImpl.cpp).
    Each method is one step under the manager's lock; calls may come in any order. */
module BucketManagers {
  import opened LedgerCmp
  import opened Wrappers
  import opened Buckets
  import opened BucketMergeMaps

  // ----- what a merge yields

  /** What the merge of a key yields under a limit on the protocol version. */
  function Outcome(key: MergeKey, limit: nat): (r: MergeResult) {
    Merge(limit, key.curr, key.snap, key.shadows, key.keepDead)
  }

  function Version(key: MergeKey): (r: nat) {
    MergeVersion(key.curr, key.snap, key.shadows)
  }

  /** The bucket the merge of a key yields, if it yields one at all. */
  predicate Yields(key: MergeKey, b: Bucket) {
    Outcome(key, Version(key)) == Merged(b)
  }

  /** A key does not contain the limit: the outcomes under two limits are the same exactly if the version
      of the merge exceeds both or neither. */
  lemma OutcomeDependsOnLimit(key: MergeKey, limit: nat, limit': nat)
    ensures Outcome(key, limit) == Outcome(key, limit') <==> (Version(key) <= limit <==> Version(key) <= limit')
  {
    NeverVersionError(Setting(Version(key), key.shadows, key.keepDead), key.curr.changes, key.snap.changes);
  }

  lemma {:induction false} NeverVersionError(s: Setting, o: seq<Change>, n: seq<Change>)
    ensures MergeChanges(s, o, n) != Rejected(VersionExceedsMax)
    decreases |o| + |n|
  {
    if o != [] { NeverVersionError(s, o[1..], n); }
    if n != [] { NeverVersionError(s, o, n[1..]); }
    if o != [] && n != [] { NeverVersionError(s, o[1..], n[1..]); }
  }

  /** Such limits exist: the merge of two empty buckets of version 11 fails under limit 10 only. */
  lemma LimitMatters()
    ensures var key := MergeKey(true, Bucket(11, []), Bucket(11, []), []);
            Outcome(key, 10) != Outcome(key, 11)
  {
    OutcomeDependsOnLimit(MergeKey(true, Bucket(11, []), Bucket(11, []), []), 10, 11);
  }

  /** What makes a merge of a key succeed, stated on its inputs and its limit. */
  ghost predicate Mergeable(key: MergeKey, limit: nat) {
    && Version(key) <= limit
    && ShadowsSupported(Version(key), key.shadows)
    && NeverClash(key.curr, key.snap)
  }

  lemma OutcomeIsExact(key: MergeKey, limit: nat)
    requires WellFormed(key.curr) && WellFormed(key.snap)
    ensures Outcome(key, limit).Merged? <==> Mergeable(key, limit)
  {
    MergeOutcome(limit, key.curr, key.snap, key.shadows, key.keepDead);
  }

  lemma MergedYields(key: MergeKey, limit: nat, b: Bucket)
    requires Outcome(key, limit) == Merged(b)
    ensures Yields(key, b)
  {
    OutcomeDependsOnLimit(key, limit, Version(key));
  }

  /** A future: of a running merge with the limit it was started under, or already fulfilled. */
  datatype Future = Running(key: MergeKey, limit: nat) | Ready(bucket: Bucket) {
    /** What waiting for the future gives. */
    function Value(): (r: MergeResult) {
      match this
      case Running(key, limit) => Outcome(key, limit)
      case Ready(b) => Merged(b)
    }
  }

  /** Every recorded output is what its merge yields. */
  ghost predicate Sound(history: set<MergeRecord>) {
    forall r :: r in history ==> Yields(r.key, r.output)
  }

  /** Every remembered output is in memory, and not empty. */
  ghost predicate Retained(records: seq<MergeRecord>, shared: set<Bucket>) {
    forall i :: 0 <= i < |records| ==> records[i].output in shared
  }

  ghost predicate NotLive(records: seq<MergeRecord>, live: map<MergeKey, nat>) {
    forall i :: 0 <= i < |records| ==> records[i].key !in live
  }

  lemma SoundIsFunctional(history: set<MergeRecord>)
    requires Sound(history)
    ensures Functional(history)
  {
    forall a, b | a in history && b in history && a.key == b.key ensures a == b {
      assert Yields(a.key, a.output) && Yields(b.key, b.output);
    }
  }

  lemma RecordFacts(records: seq<MergeRecord>, history: set<MergeRecord>, shared: set<Bucket>, r: MergeRecord)
    requires Sound(history) && AllIn(records, history) && Retained(records, shared) && r in records
    ensures Yields(r.key, r.output) && r.output in shared
  {
    var i :| 0 <= i < |records| && records[i] == r;
    assert records[i] in history;
  }

  lemma Recorded(records: seq<MergeRecord>, history: set<MergeRecord>, shared: set<Bucket>, live: map<MergeKey, nat>,
                 key: MergeKey, b: Bucket)
    requires Sound(history) && Retained(records, shared) && NotLive(records, live) && Yields(key, b)
    ensures Sound(history + {MergeRecord(key, b)})
    ensures var records' := [MergeRecord(key, b)] + records;
            Retained(records', shared + {b}) && NotLive(records', live - {key})
  {
  }

  /** The outputs of the merges that use an input. */
  function OutputsUsing(records: seq<MergeRecord>, h: Hash): (r: set<Hash>) {
    set m | m in records && h in Hashes(m.key) :: m.output
  }

  lemma {:induction false} OutputsUsingAll(records: seq<MergeRecord>, h: Hash)
    ensures forall o :: o in OutputsUsing(records, h) <==> Uses(records, h, o) > 0
  {
    if records != [] {
      OutputsUsingAll(records[1..], h);
      assert forall m :: m in records <==> m == records[0] || m in records[1..];
      assert OutputsUsing(records, h) ==
        OutputsUsing(records[1..], h) + if h in Hashes(records[0].key) then {records[0].output} else {};
    }
  }

  /** A queued bucket, with the outputs of merges that use it, unless it is referenced already. */
  function Project(records: seq<MergeRecord>, before: set<Hash>, q: Hash): (r: set<Hash>) {
    if q in before then before else before + {q} + OutputsUsing(records, q)
  }

  /** What collecting the queue gives. */
  function Referenced(records: seq<MergeRecord>, base: set<Hash>, queue: seq<Hash>): (r: set<Hash>) {
    if queue == [] then base
    else Project(records, Referenced(records, base, queue[..|queue| - 1]), queue[|queue| - 1])
  }

  lemma ReferencedAppend(records: seq<MergeRecord>, base: set<Hash>, queue: seq<Hash>, q: Hash)
    ensures Referenced(records, base, queue + [q]) == Project(records, Referenced(records, base, queue), q)
  {
    assert (queue + [q])[..|queue|] == queue;
  }

  /** The queue is projected through the merges at i: its bucket was not referenced before. */
  predicate Projects(records: seq<MergeRecord>, base: set<Hash>, queue: seq<Hash>, i: nat)
    requires i < |queue|
  {
    queue[i] !in Referenced(records, base, queue[..i])
  }

  /** At i, the queue is projected to this output. */
  predicate ProjectsTo(records: seq<MergeRecord>, base: set<Hash>, queue: seq<Hash>, i: nat, h: Hash)
    requires i < |queue|
  {
    Projects(records, base, queue, i) && h in OutputsUsing(records, queue[i])
  }

  lemma ProjectsAlike(records: seq<MergeRecord>, base: set<Hash>, init: seq<Hash>, q: Hash, i: nat, h: Hash)
    requires i < |init|
    ensures ProjectsTo(records, base, init + [q], i, h) == ProjectsTo(records, base, init, i, h)
  {
    assert (init + [q])[..i] == init[..i];
  }

  /** Exactly what is referenced: the list and the last closed ledger, the queue, and the outputs that use a queued
      bucket which was not referenced when its turn came. */
  lemma {:induction false} ReferencedIff(records: seq<MergeRecord>, base: set<Hash>, queue: seq<Hash>, h: Hash)
    ensures h in Referenced(records, base, queue) <==>
              || h in base || h in queue
              || exists i :: 0 <= i < |queue| && ProjectsTo(records, base, queue, i, h)
  {
    if queue != [] {
      var init, q := queue[..|queue| - 1], queue[|queue| - 1];
      assert queue == init + [q];
      ReferencedIff(records, base, init, h);
      forall i | 0 <= i < |init|
        ensures ProjectsTo(records, base, queue, i, h) == ProjectsTo(records, base, init, i, h)
      {
        ProjectsAlike(records, base, init, q, i, h);
      }
      assert ProjectsTo(records, base, queue, |init|, h) <==>
             q !in Referenced(records, base, init) && h in OutputsUsing(records, q);
    }
  }

  /** A queued bucket keeps the outputs of all known merges that use it if it was not referenced when its turn came;
      if it was, leaving it out of the queue changes nothing. */
  lemma QueuedBucket(records: seq<MergeRecord>, base: set<Hash>, queue: seq<Hash>, i: nat)
    requires i < |queue|
    ensures Projects(records, base, queue, i) ==>
              OutputsUsing(records, queue[i]) <= Referenced(records, base, queue)
    ensures !Projects(records, base, queue, i) ==>
              Referenced(records, base, queue[..i] + queue[i + 1..]) == Referenced(records, base, queue)
  {
    if Projects(records, base, queue, i) {
      forall h | h in OutputsUsing(records, queue[i]) ensures h in Referenced(records, base, queue) {
        ReferencedIff(records, base, queue, h);
        assert ProjectsTo(records, base, queue, i, h);
      }
    } else {
      SkippedAddsNothing(records, base, queue[..i], queue[i], queue[i + 1..]);
      assert queue[..i] + [queue[i]] + queue[i + 1..] == queue;
    }
  }

  lemma {:induction false} SkippedAddsNothing(records: seq<MergeRecord>, base: set<Hash>,
                                              before: seq<Hash>, q: Hash, after: seq<Hash>)
    requires q in Referenced(records, base, before)
    ensures Referenced(records, base, before + [q] + after) == Referenced(records, base, before + after)
    decreases |after|
  {
    if after == [] {
      assert before + [q] + after == before + [q] && before + after == before;
      ReferencedAppend(records, base, before, q);
    } else {
      var n := |after| - 1;
      SkippedAddsNothing(records, base, before, q, after[..n]);
      ReferencedAppend(records, base, before + [q] + after[..n], after[n]);
      ReferencedAppend(records, base, before + after[..n], after[n]);
      assert before + [q] + after[..n] + [after[n]] == before + [q] + after;
      assert before + after[..n] + [after[n]] == before + after;
    }
  }

  /** So an output can be dropped although the queue holds one of its inputs: here the bucket q is also referenced by
      the list, and q merged with s is o. */
  lemma QueueForgetsOutputs(k: LedgerKey)
    ensures var q, s, o := Bucket(11, [Dead(k)]), Bucket(12, []), Bucket(12, [Dead(k)]);
            var key := MergeKey(true, q, s, []);
            var records := [MergeRecord(key, o)];
            && Yields(key, o) && o in OutputsUsing(records, q)
            && o in Referenced(records, {}, [q]) && o !in Referenced(records, {q}, [q])
  {
    var q, s, o := Bucket(11, [Dead(k)]), Bucket(12, []), Bucket(12, [Dead(k)]);
    var key := MergeKey(true, q, s, []);
    var records := [MergeRecord(key, o)];
    assert [Dead(k)][1..] == [];
    assert MergeChanges(Setting(12, [], true), [], []) == Entries([]);
    assert MergeChanges(Setting(12, [], true), q.changes, s.changes) == Entries([Dead(k)]);
    assert records[0] in records && q in Hashes(key);
    assert [q][..0] == [] && [q][..|[q]| - 1] == [];
  }

  lemma {:induction false} WithoutKeeps(records: seq<MergeRecord>, b: Hash)
    ensures forall m :: m in Without(records, b) <==> m in records && m.output != b
  {
    if records != [] {
      WithoutKeeps(records[1..], b);
      assert forall m :: m in records <==> m == records[0] || m in records[1..];
    }
  }

  /** The records of merges whose outputs were dropped are gone, and no others. */
  ghost predicate Narrowed(before: seq<MergeRecord>, after: seq<MergeRecord>, dropped: set<Hash>) {
    forall m :: m in after <==> m in before && m.output !in dropped
  }

  lemma NarrowedMore(a: seq<MergeRecord>, b: seq<MergeRecord>, c: seq<MergeRecord>, dropped: set<Hash>, h: Hash)
    requires Narrowed(a, b, dropped) && Narrowed(b, c, {h})
    ensures Narrowed(a, c, dropped + {h})
  {
  }

  lemma NarrowedToRetained(before: seq<MergeRecord>, after: seq<MergeRecord>, known: set<Hash>, dropped: set<Hash>)
    requires Narrowed(before, after, dropped) && Retained(before, known)
    ensures forall r :: r in after <==> r in before && r.output in known - dropped
  {
    forall r | r in before ensures r.output in known {
      var i :| 0 <= i < |before| && before[i] == r;
    }
  }

  /** Dropping a bucket never cancels a running merge. */
  lemma ForgottenNotLive(before: seq<MergeRecord>, live: map<MergeKey, nat>, shared: set<Bucket>, b: Bucket,
                         forgotten: set<MergeKey>)
    requires NotLive(before, live) && Retained(before, shared)
    requires forall key :: key in forgotten <==> MergeRecord(key, b) in before
    ensures live - forgotten == live
    ensures Narrowed(before, Without(before, b), {b})
    ensures NotLive(Without(before, b), live) && Retained(Without(before, b), shared - {b})
  {
    WithoutKeeps(before, b);
    forall key | key in forgotten ensures key !in live {
      var i :| 0 <= i < |before| && before[i] == MergeRecord(key, b);
    }
    forall i | 0 <= i < |Without(before, b)| ensures Without(before, b)[i] in before {
      assert Without(before, b)[i] in Without(before, b);
    }
  }

  lemma DropOne(known: set<Hash>, stored: set<Hash>, keep: set<Hash>, todo: set<Hash>, dropped: set<Hash>, b: Hash)
    requires todo <= known && b in todo && dropped == known - keep - todo
    ensures known - keep - (todo - {b}) == if b in keep then dropped else dropped + {b}
    ensures known - (dropped + {b}) == known - dropped - {b} && stored - (dropped + {b}) == stored - dropped - {b}
    ensures b in known - dropped
  {
  }

  /** What a sweep changes. */
  datatype Store = Store(records: seq<MergeRecord>, shared: set<Bucket>, files: set<Bucket>)

  /** A sweep has dropped what is neither kept nor still to be looked at. */
  ghost predicate SweptTo(was: Store, now: Store, keep: set<Hash>, todo: set<Hash>, dropped: set<Hash>) {
    && todo <= was.shared && dropped == was.shared - keep - todo && Retained(was.records, was.shared)
    && now.shared == was.shared - dropped && now.files == was.files - dropped
    && Narrowed(was.records, now.records, dropped)
  }

  lemma SweepDone(was: Store, now: Store, keep: set<Hash>, dropped: set<Hash>)
    requires SweptTo(was, now, keep, {}, dropped)
    ensures now.shared == was.shared * keep && now.files == was.files - (was.shared - now.shared)
    ensures forall r :: r in now.records <==> r in was.records && r.output in now.shared
  {
    assert was.shared - now.shared == dropped;
    NarrowedToRetained(was.records, now.records, was.shared, dropped);
  }

  class BucketManager {
    /** Buckets in memory, and bucket files. */
    var shared: set<Bucket>
    var files: set<Bucket>
    /** The running merges and the limits they were started under. */
    var live: map<MergeKey, nat>
    const finished: BucketMergeMap

    ghost predicate Valid()
      reads this, finished
    {
      && finished.Valid()
      && Sound(finished.history)
      && Retained(finished.records, shared)
      && NotLive(finished.records, live)
      && shared <= files && EMPTY !in files
    }

    constructor ()
      ensures Valid() && fresh(finished) && shared == {} && files == {} && live == map[] && finished.records == []
    {
      shared, files, live := {}, {}, map[];
      finished := new BucketMergeMap();
    }

    /** getBucketByHash: the empty bucket, or one whose file exists. */
    method GetBucketByHash(h: Hash) returns (b: Option<Bucket>)
      requires Valid()
      modifies this`shared
      ensures Valid() && old(shared) <= shared <= old(shared) + {h}
      ensures b == if h == EMPTY || h in files then Some(h) else None
      ensures h in files ==> h in shared
    {
      if h == EMPTY {
        return Some(EMPTY);
      }
      if h in shared {
        return Some(h);
      }
      if h in files {
        shared := shared + {h};
        return Some(h);
      }
      return None;
    }

    /** getMergeFuture: a future of this merge, if it is running or its output is still known. */
    method GetMergeFuture(key: MergeKey) returns (f: Option<Future>)
      requires Valid()
      modifies this`shared
      ensures Valid() && shared == old(shared)
      ensures key in live ==> f == Some(Running(key, live[key]))
      ensures key !in live ==>
                if exists b :: MergeRecord(key, b) in finished.records then
                  && f.Some? && f.value.Ready? && Yields(key, f.value.bucket)
                  && MergeRecord(key, f.value.bucket) in finished.records
                else f.None?
    {
      if key !in live {
        SoundIsFunctional(finished.history);
        var output := finished.FindMergeFor(key);
        if output.Some? {
          RecordFacts(finished.records, finished.history, shared, MergeRecord(key, output.value));
          var b := GetBucketByHash(output.value);
          if b.Some? {
            return Some(Ready(b.value));
          }
        }
        return None;
      }
      return Some(Running(key, live[key]));
    }

    /** putMergeFuture: a future that is already there stays. */
    method PutMergeFuture(key: MergeKey, limit: nat)
      requires Valid() && forall b :: MergeRecord(key, b) !in finished.records
      modifies this`live
      ensures Valid() && live == if key in old(live) then old(live) else old(live)[key := limit]
    {
      if key !in live {
        forall i | 0 <= i < |finished.records| ensures finished.records[i].key != key {
          assert finished.records[i] == MergeRecord(finished.records[i].key, finished.records[i].output);
        }
        live := live[key := limit];
      }
    }

    /** adoptFileAsBucket for the non-empty output of a finished merge. */
    method AdoptFileAsBucket(b: Bucket, key: MergeKey)
      requires Valid() && b != EMPTY && Yields(key, b)
      modifies this`shared, this`files, this`live, finished
      ensures Valid() && shared == old(shared) + {b} && files == old(files) + {b}
      ensures live == old(live) - {key}
      ensures finished.records == [MergeRecord(key, b)] + old(finished.records)
    {
      Recorded(finished.records, finished.history, shared, live, key, b);
      live := live - {key};
      StoreBucket(b);
      finished.RecordMerge(key, b);
    }

    /** Keeps the file of the bucket, unless there is one already. */
    method StoreBucket(b: Bucket)
      requires Valid() && b != EMPTY
      modifies this`shared, this`files
      ensures Valid() && shared == old(shared) + {b} && files == old(files) + {b}
    {
      var existing := GetBucketByHash(b);
      if existing.None? {
        files := files + {b};
        shared := shared + {b};
      }
    }

    /** noteEmptyMergeOutput. */
    method NoteEmptyMergeOutput(key: MergeKey)
      requires Valid()
      modifies this`live
      ensures Valid() && live == old(live) - {key}
    {
      live := live - {key};
    }

    /** The worker of a live merge ends; a failure leaves everything as it is. */
    method FinishMerge(key: MergeKey)
      requires Valid() && key in live
      modifies this`shared, this`files, this`live, finished
      ensures Valid() && old(shared) <= shared && old(files) <= files
      ensures old(live[key]) < Version(key) ==> live == old(live)
      ensures key in live ==> live == old(live) && Outcome(key, live[key]).Failed?
      ensures key !in live ==> live == old(live) - {key} && exists b :: Yields(key, b) && (b == EMPTY || b in shared)
      ensures forall b :: Yields(key, b) && b != EMPTY && Version(key) <= old(live[key]) ==>
                finished.records == [MergeRecord(key, b)] + old(finished.records)
    {
      var outcome := Outcome(key, live[key]);
      if outcome.Merged? {
        MergedYields(key, live[key], outcome.bucket);
        if outcome.bucket == EMPTY {
          NoteEmptyMergeOutput(key);
        } else {
          AdoptFileAsBucket(outcome.bucket, key);
        }
      } else {
        OutcomeDependsOnLimit(key, live[key], Version(key));
      }
    }

    /** getReferencedBuckets, the publish queue: `base` is what the list and the last closed ledger reference. */
    method ProjectQueue(base: set<Hash>, queue: seq<Hash>) returns (referenced: set<Hash>)
      requires Valid()
      ensures referenced == Referenced(finished.records, base, queue)
    {
      referenced := base;
      for i := 0 to |queue|
        invariant referenced == Referenced(finished.records, base, queue[..i])
      {
        assert queue[..i + 1][..i] == queue[..i];
        if queue[i] !in referenced {
          var outputs := finished.GetOutputsUsingInput(queue[i]);
          assert outputs == OutputsUsing(finished.records, queue[i]) by {
            OutputsUsingAll(finished.records, queue[i]);
          }
          referenced := referenced + {queue[i]} + outputs;
        }
      }
      assert queue[..|queue|] == queue;
    }

    /** forgetUnreferencedBuckets, the sweep; `pinned` are the buckets somebody else still holds. */
    method Sweep(referenced: set<Hash>, pinned: set<Hash>)
      requires Valid()
      modifies this`shared, this`files, this`live, finished
      ensures Valid() && live == old(live)
      ensures shared == old(shared) * (referenced + pinned)
      ensures files == old(files) - (old(shared) - shared)
      ensures forall r :: r in finished.records <==> r in old(finished.records) && r.output in shared
    {
      ghost var was, dropped := Store(finished.records, shared, files), {};
      var todo := shared;
      while todo != {}
        invariant Valid() && live == old(live)
        invariant SweptTo(was, Store(finished.records, shared, files), referenced + pinned, todo, dropped)
        decreases |todo|
      {
        var b :| b in todo;
        dropped := SweepOne(b, referenced, pinned, was, todo, dropped);
        todo := todo - {b};
      }
      SweepDone(was, Store(finished.records, shared, files), referenced + pinned, dropped);
    }

    /** One bucket of the sweep. */
    method SweepOne(b: Bucket, referenced: set<Hash>, pinned: set<Hash>,
                    ghost was: Store, ghost todo: set<Hash>, ghost dropped: set<Hash>)
        returns (ghost dropped': set<Hash>)
      requires Valid() && b in todo
      requires SweptTo(was, Store(finished.records, shared, files), referenced + pinned, todo, dropped)
      modifies this`shared, this`files, this`live, finished
      ensures Valid() && live == old(live)
      ensures SweptTo(was, Store(finished.records, shared, files), referenced + pinned, todo - {b}, dropped')
    {
      DropOne(was.shared, was.files, referenced + pinned, todo, dropped, b);
      dropped' := dropped;
      if b !in referenced && b !in pinned {
        ghost var records := finished.records;
        ForgetBucket(b);
        NarrowedMore(was.records, records, finished.records, dropped, b);
        dropped' := dropped + {b};
      }
    }

    method ForgetBucket(b: Bucket)
      requires Valid() && b in shared
      modifies this`shared, this`files, this`live, finished
      ensures Valid() && live == old(live) && shared == old(shared) - {b} && files == old(files) - {b}
      ensures Narrowed(old(finished.records), finished.records, {b})
    {
      files := files - {b};
      ghost var before := finished.records;
      var forgotten := finished.ForgetAllMergesProducing(b);
      ForgottenNotLive(before, live, shared, b, forgotten);
      live := live - forgotten;
      shared := shared - {b};
    }
  }
}
