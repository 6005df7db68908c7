/** The futures of the list as the bucket manager serves them: whoever started a merge, and under whatever limit, the
    level that asks for it gets what the list expects (src/bucket/BucketList.cpp, src/bucket/FutureBucket.cpp). */
module LevelFutures {
  import opened Buckets
  import opened BucketMergeMaps
  import opened BucketManagers
  import opened Schedule
  import opened SpillingList
  import opened BucketListState
  import opened BucketListRun
  import opened FutureBuckets
  import opened Batches

  /** Every running merge was started under a limit that admits it. */
  ghost predicate LimitsSuffice(live: map<MergeKey, nat>) {
    forall key :: key in live ==> Version(key) <= live[key]
  }

  lemma StartedWithinLimit(bm: BucketManager, before: map<MergeKey, nat>, key: MergeKey, limit: nat, f: Future)
    requires Started(bm, before, key, limit, f) && LimitsSuffice(before) && Version(key) <= limit
    ensures WithinLimit(f, key) && LimitsSuffice(bm.live)
  {
  }

  predicate AllInputsMerged(inputs: Inputs<Slot>) {
    inputs.curr.Merged? && inputs.snap.Merged? && AllMerged(inputs.shadows)
  }

  /** The merge of level i, as the manager knows it. */
  function LevelKey(n: nat, i: nat, inputs: Inputs<Slot>): (r: MergeKey)
    requires AllInputsMerged(inputs)
  {
    MergeKey(KeepDeadEntries(n, i), inputs.curr.bucket, inputs.snap.bucket, Contents(inputs.shadows))
  }

  /** The version of a merge that a lawful list has pending is that of the snap it takes in, and the limit it was
      started under admits it. */
  lemma LevelMerge(ls: Levels, ledger: nat, i: nat)
    requires Lawful(ls, ledger) && 0 < i < |ls| && ls[i].next.Merging?
    ensures var inputs := ls[i].next.inputs;
            && AllInputsMerged(inputs)
            && Version(LevelKey(|ls|, i, inputs)) == ls[i - 1].snap.bucket.version <= inputs.limit
            && (inputs.snap.bucket.version < FIRST_PROTOCOL_SHADOWS_REMOVED || inputs.shadows == [])
            && Outcome(LevelKey(|ls|, i, inputs), inputs.limit) == BucketListState.Future(ls, i)
  {
    assert PendingAt(ls, ledger, i) && ShapeAt(ls, ledger, i) && ShapeAt(ls, ledger, i - 1);
    var keepDead, inputs := KeepDeadEntries(|ls|, i), ls[i].next.inputs;
    assert POLICY.merge(keepDead, inputs) == MergeSlots(keepDead, inputs);
  }

  /** A future bucket that is live with the inputs of a level. */
  ghost predicate Holds(f: Fields, n: nat, i: nat, next: Next<Slot>) {
    && next.Merging? && AllInputsMerged(next.inputs)
    && f.Reachable(KeepDeadEntries(n, i)) && f.state == FB_LIVE_INPUTS
    && f.Key(KeepDeadEntries(n, i)) == LevelKey(n, i, next.inputs)
  }

  /** With a future within its limit it resolves to the future of the level. */
  lemma LevelResolves(ls: Levels, ledger: nat, i: nat, f: Fields)
    requires Lawful(ls, ledger) && 0 < i < |ls| && Holds(f, |ls|, i, ls[i].next)
    requires WithinLimit(f.future.value, LevelKey(|ls|, i, ls[i].next.inputs))
    ensures Resolution(f) == BucketListState.Future(ls, i)
  {
    var key, limit := LevelKey(|ls|, i, ls[i].next.inputs), ls[i].next.inputs.limit;
    LevelMerge(ls, ledger, i);
    FuturesAgree(key, f.future.value, Running(key, limit));
  }

  /** BucketLevel::prepare through the manager: the future of the level is the running merge of its inputs, a finished
      one or a new one; whichever it is, it resolves to what the list expects, and limits keep sufficing. */
  method PrepareLevel(bm: BucketManager, n: nat, i: nat, inputs: Inputs<Slot>, ghost ls: Levels, ghost ledger: nat)
      returns (next: FutureBucket)
    requires bm.Valid() && LimitsSuffice(bm.live)
    requires Lawful(ls, ledger) && n == |ls| && 0 < i < n && ls[i].next == Merging(inputs)
    modifies bm`live, bm`shared
    ensures fresh(next) && next.Valid() && next.Value().IsLive()
    ensures bm.Valid() && LimitsSuffice(bm.live)
    ensures Resolution(next.Value()) == BucketListState.Future(ls, i)
  {
    LevelMerge(ls, ledger, i);
    ghost var before, key := bm.live, LevelKey(n, i, inputs);
    next := new FutureBucket(KeepDeadEntries(n, i));
    var ok := next.Merge(bm, inputs.limit, inputs.curr.bucket, inputs.snap.bucket, Contents(inputs.shadows));
    assert ok;
    StartedWithinLimit(bm, before, key, inputs.limit, next.future.value);
    LevelResolves(ls, ledger, i, next.Value());
  }

  /** A future bucket as a restart finds it: with the hashes of a level's inputs, or of its output. */
  ghost predicate StoredAs(f: Fields, n: nat, i: nat, next: Next<Slot>) {
    && f.Reachable(KeepDeadEntries(n, i))
    && match next
       case Merging(inputs) =>
         f.state == FB_HASH_INPUTS && AllInputsMerged(inputs) && f.Key(KeepDeadEntries(n, i)) == LevelKey(n, i, inputs)
       case Resolved(output) => f.state == FB_HASH_OUTPUT && output == Merged(f.outputHash.value)
       case Clear => false
  }

  /** FutureBucket::makeLive at a restart whose limit admits the merge: it succeeds exactly if the buckets are
      available, and then resolves to what the list expects; limits keep sufficing. */
  method MakeLevelLive(bm: BucketManager, next: FutureBucket, limit: nat, ghost ls: Levels, ghost ledger: nat, i: nat)
      returns (ok: bool)
    requires bm.Valid() && LimitsSuffice(bm.live)
    requires Lawful(ls, ledger) && 0 < i < |ls| && ls[i - 1].snap.bucket.version <= limit
    requires next.keepDead == KeepDeadEntries(|ls|, i) && StoredAs(next.Value(), |ls|, i, ls[i].next)
    modifies next, bm`live, bm`shared
    ensures bm.Valid() && LimitsSuffice(bm.live) && ok == Available(bm.files, old(next.Value()))
    ensures ok ==> next.Valid() && next.Value().IsLive() && Resolution(next.Value()) == BucketListState.Future(ls, i)
  {
    ghost var before := bm.live;
    ok := next.MakeLive(bm, limit);
    if ok && ls[i].next.Merging? {
      LevelMerge(ls, ledger, i);
      StartedWithinLimit(bm, before, LevelKey(|ls|, i, ls[i].next.inputs), limit, next.future.value);
      LevelResolves(ls, ledger, i, next.Value());
    }
  }

  /** The worker of a merge ends: limits keep sufficing, and the merge does not fail for its version. */
  method FinishLevelMerge(bm: BucketManager, key: MergeKey)
    requires bm.Valid() && LimitsSuffice(bm.live) && key in bm.live
    modifies bm`shared, bm`files, bm`live, bm.finished
    ensures bm.Valid() && LimitsSuffice(bm.live)
    ensures key in bm.live ==>
              Outcome(key, bm.live[key]).Failed? && Outcome(key, bm.live[key]) != Failed(VersionExceedsMax)
  {
    NeverVersionError(Setting(Version(key), key.shadows, key.keepDead), key.curr.changes, key.snap.changes);
    bm.FinishMerge(key);
  }

  /** A future bucket that is live with the inputs of a level got its future from the manager: the merge was asked for
      under a limit that admits the snap it takes in, and all limits sufficed before. */
  ghost predicate Served(bm: BucketManager, before: map<MergeKey, nat>, limit: nat,
                         f: Fields, n: nat, i: nat, next: Next<Slot>, snap: Slot)
    reads bm, bm.finished
  {
    && Holds(f, n, i, next) && LimitsSuffice(before)
    && Started(bm, before, LevelKey(n, i, next.inputs), limit, f.future.value)
    && (snap.Merged? ==> snap.bucket.version <= limit)
  }

  /** What the list knows of a merge it has pending. */
  ghost predicate Admitted(n: nat, i: nat, level: Level<Slot>, above: Level<Slot>) {
    && level.next.Merging? && AllInputsMerged(level.next.inputs) && above.snap.Merged?
    && Version(LevelKey(n, i, level.next.inputs)) == above.snap.bucket.version <= level.next.inputs.limit
    && Outcome(LevelKey(n, i, level.next.inputs), level.next.inputs.limit) == Output(POLICY, n, i, level.next)
  }

  ghost predicate AdmittedAt(ls: Levels, i: nat)
    requires i < |ls|
  {
    0 < i && ls[i].next.Merging? ==> Admitted(|ls|, i, ls[i], ls[i - 1])
  }

  ghost predicate AllAdmitted(ls: Levels) {
    forall i :: 0 <= i < |ls| ==> AdmittedAt(ls, i)
  }

  lemma LawfulAdmitted(ls: Levels, ledger: nat)
    requires Lawful(ls, ledger)
    ensures AllAdmitted(ls)
  {
    forall i | 0 <= i < |ls| ensures AdmittedAt(ls, i) {
      if 0 < i && ls[i].next.Merging? {
        LevelMerge(ls, ledger, i);
      }
    }
  }

  /** After any run, the limit of every pending merge admits it. */
  lemma {:induction false} RunAdmitted(ls: Levels, ledger: nat, m: Ledger, protocol: nat, closes: seq<Close>)
    requires Represents(ls, ledger, m, protocol) && Legal(m, protocol, closes)
    ensures AllAdmitted(Run(ls, ledger, closes))
  {
    RunRepresents(ls, ledger, m, protocol, closes);
    LawfulAdmitted(Run(ls, ledger, closes), ledger + |closes|);
  }

  /** Such a merge, served by the manager, gives what the list expects. */
  lemma ServedResolves(bm: BucketManager, before: map<MergeKey, nat>, limit: nat,
                       f: Fields, n: nat, i: nat, level: Level<Slot>, above: Level<Slot>)
    requires Admitted(n, i, level, above) && Served(bm, before, limit, f, n, i, level.next, above.snap)
    ensures Resolution(f) == Output(POLICY, n, i, level.next) && LimitsSuffice(bm.live)
  {
    var key := LevelKey(n, i, level.next.inputs);
    StartedWithinLimit(bm, before, key, limit, f.future.value);
    FuturesAgree(key, f.future.value, Running(key, level.next.inputs.limit));
  }

  /** After any run, every future that a level gets from the manager resolves to what the list expects of the level. */
  lemma {:induction false} RunLevelResolves(ls: Levels, ledger: nat, m: Ledger, protocol: nat, closes: seq<Close>,
                                            i: nat, level: Level<Slot>, above: Level<Slot>, f: Fields,
                                            bm: BucketManager, before: map<MergeKey, nat>, limit: nat)
    requires Represents(ls, ledger, m, protocol) && Legal(m, protocol, closes) && 0 < i < |ls|
    requires level == Run(ls, ledger, closes)[i] && above == Run(ls, ledger, closes)[i - 1]
    requires Served(bm, before, limit, f, |ls|, i, level.next, above.snap)
    ensures Resolution(f) == Output(POLICY, |ls|, i, level.next) && LimitsSuffice(bm.live)
  {
    RunAdmitted(ls, ledger, m, protocol, closes);
    assert AdmittedAt(Run(ls, ledger, closes), i);
    ServedResolves(bm, before, limit, f, |ls|, i, level, above);
  }
}
