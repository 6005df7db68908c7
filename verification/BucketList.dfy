/** The bucket list object (src/bucket/BucketList.cpp). */
module BucketLists {
  import opened Buckets
  import opened Batches
  import opened Schedule
  import opened SpillingList
  import opened BucketListState
  import opened BucketListRun
  import opened Restart

  class BucketList {
    var levels: Levels

    /** Between calls level 0 has no merge of its own. */
    predicate Valid()
      reads this
    {
      0 < |levels| && levels[0].next.Clear?
    }

    constructor (numLevels: nat)
      requires 0 < numLevels
      ensures Valid() && levels == Initial(POLICY, numLevels)
    {
      levels := Initial(POLICY, numLevels);
    }

    /** BucketLevel::snap. */
    method Snap(i: nat) returns (snap: Slot)
      requires i < |levels|
      modifies this
      ensures snap == old(levels[i].curr)
      ensures levels == old(levels)[i := old(levels[i]).(snap := snap, curr := Merged(EMPTY))]
    {
      snap := levels[i].curr;
      levels := levels[i := levels[i].(snap := snap)];
      levels := levels[i := levels[i].(curr := Merged(EMPTY))];
    }

    /** BucketLevel::commit. */
    method Commit(i: nat)
      requires i < |levels|
      modifies this
      ensures levels == old(levels)[i := old(levels[i]).(next := Clear,
                 curr := if old(levels[i]).next.Clear? then old(levels[i]).curr
                         else Output(POLICY, |old(levels)|, i, old(levels[i]).next))]
    {
      if !levels[i].next.Clear? {
        var output := Output(POLICY, |levels|, i, levels[i].next);
        levels := levels[i := levels[i].(next := Clear)];
        levels := levels[i := levels[i].(curr := output)];
      }
      assert !levels[i].next.Merging?;
    }

    /** BucketLevel::prepare; a level that is merging already must not be prepared. */
    method Prepare(i: nat, ledger: nat, protocol: nat, snap: Slot, shadows: seq<Slot>)
      requires i < |levels| && !levels[i].next.Merging?
      modifies this
      ensures levels == old(levels)[i := old(levels[i]).(next :=
                 Merging(PreparedInputs(POLICY, |old(levels)|, ledger, protocol, i, old(levels[i]).curr, snap,
                                        shadows)))]
    {
      var curr := if ShouldMergeWithEmptyCurr(|levels|, ledger, i) then Merged(EMPTY) else levels[i].curr;
      var shadowsBasedOnProtocol := if UsesShadows(snap) then shadows else [];
      levels := levels[i := levels[i].(next := Merging(Inputs(curr, snap, shadowsBasedOnProtocol, protocol)))];
    }

    /** BucketList::resolveAnyReadyFutures, where the merges of the levels in `done` are complete. */
    method ResolveAnyReadyFutures(done: set<nat>)
      modifies this
      ensures levels == Resolve(POLICY, old(levels), done)
    {
      for i := 0 to |levels|
        invariant |levels| == |old(levels)|
        invariant forall j :: 0 <= j < |levels| ==>
                    levels[j] == if j < i then Resolve(POLICY, old(levels), done)[j] else old(levels)[j]
      {
        if levels[i].next.Merging? && i in done {
          levels := levels[i := levels[i].(next := Resolved(Output(POLICY, |levels|, i, levels[i].next)))];
        }
      }
    }

    /** BucketList::getMaxMergeLevel. */
    method GetMaxMergeLevel(ledger: nat) returns (m: nat)
      requires 0 < |levels|
      ensures m == MaxMergeLevelFrom(|levels|, ledger, 0)
    {
      m := 0;
      while m < |levels| - 1 && LevelShouldSpill(|levels|, ledger, m)
        invariant m < |levels|
        invariant MaxMergeLevelFrom(|levels|, ledger, 0) == MaxMergeLevelFrom(|levels|, ledger, m)
      {
        m := m + 1;
      }
    }

    /** curr and snap of every level, youngest first. */
    method CollectShadows() returns (shadows: seq<Slot>)
      ensures shadows == Shadows(levels, |levels|)
    {
      shadows := [];
      for j := 0 to |levels|
        invariant shadows == Shadows(levels, j)
      {
        shadows := shadows + [levels[j].curr, levels[j].snap];
      }
    }

    /** The spill of level i-1 into level i. */
    method SpillInto(i: nat, ledger: nat, protocol: nat, shadows: seq<Slot>, ghost ls: Levels)
      requires 0 < i && SpilledDownTo(ls, levels, ledger, protocol, i)
      requires shadows == Shadows(ls, i - 1)
      modifies this
      ensures SpilledDownTo(ls, levels, ledger, protocol, i - 1)
    {
      if LevelShouldSpill(|levels|, ledger, i - 1) {
        var snap := Snap(i - 1);
        Commit(i);
        Prepare(i, ledger, protocol, snap, shadows);
        SpilledOneMore(ls, old(levels), levels, ledger, protocol, i);
      }
    }

    /** BucketList::addBatch: in place, from the oldest level down, what `BucketListRun.AddBatch` says
        about the old list; none of the source's assertions fails on the way. */
    method AddBatch(ledger: nat, batch: Batch, done: set<nat>)
      requires Valid() && 0 < ledger
      modifies this
      ensures Valid()
      ensures levels == BucketListRun.AddBatch(old(levels), ledger, Close(batch, done))
    {
      ghost var ls := levels;
      var shadows := CollectShadows();
      assert |shadows| >= 2;
      shadows := shadows[..|shadows| - 2];

      var i := |levels| - 1;
      while i != 0
        invariant 0 <= i && SpilledDownTo(ls, levels, ledger, batch.protocol, i)
        invariant shadows == Shadows(ls, i)
      {
        assert |shadows| >= 2;
        shadows := shadows[..|shadows| - 2];
        SpillInto(i, ledger, batch.protocol, shadows, ls);
        i := i - 1;
      }

      assert shadows == [];
      Prepare(0, ledger, batch.protocol, Fresh(batch), shadows);
      Commit(0);
      Level0Added(ls, levels, ledger, batch.protocol, Fresh(batch));
      ResolveAnyReadyFutures(done);
    }

    /** FutureBucket::makeLive. */
    method MakeLive(i: nat, limit: nat)
      requires i < |levels|
      modifies this
      ensures levels == old(levels)[i := old(levels[i]).(next := LiveAgain(old(levels[i]).next, limit))]
    {
      var next := levels[i].next;
      if next.Merging? {
        levels := levels[i := levels[i].(next := Merging(next.inputs.(limit := limit)))];
      }
    }

    /** BucketList::restartMerges; it throws if a clear future would need shadows. */
    method RestartMerges(ledger: nat, limit: nat, hashed: set<nat>) returns (ok: bool)
      requires Valid()
      modifies this
      ensures Valid() && ok == RestartFrom(old(levels), ledger, limit, hashed, 0).Restarted?
      ensures ok ==> levels == RestartFrom(old(levels), ledger, limit, hashed, 0).levels
    {
      for i := 0 to |levels|
        invariant Valid() && |levels| == |old(levels)|
        invariant RestartFrom(old(levels), ledger, limit, hashed, 0) == RestartFrom(levels, ledger, limit, hashed, i)
      {
        if i in hashed && !levels[i].next.Clear? {
          MakeLive(i, limit);
        } else if levels[i].next.Clear? && i > 0 {
          var snap := levels[i - 1].snap;
          if snap == Merged(EMPTY) {
            return true;
          }
          if snap.Failed? || snap.bucket.version < FIRST_PROTOCOL_SHADOWS_REMOVED {
            return false;
          }
          Prepare(i, Mask(ledger, LevelHalf(i - 1)), snap.bucket.version, snap, []);
        }
      }
      return true;
    }
  }

  /** The levels above i are done, and level i has been snapped if it spills. */
  ghost predicate SpilledDownTo(ls: Levels, levels: Levels, ledger: nat, protocol: nat, i: nat) {
    && i < |ls| == |levels|
    && (forall j :: i < j < |ls| ==> levels[j] == LevelAfter(POLICY, ls, ledger, protocol, j))
    && levels[i] == ls[i].(snap := SnapAfter(ls, ledger, i),
                           curr := if LevelShouldSpill(|ls|, ledger, i) then Merged(EMPTY) else ls[i].curr)
    && (forall j :: 0 <= j < i ==> levels[j] == ls[j])
  }

  lemma SpilledOneMore(ls: Levels, before: Levels, after: Levels, ledger: nat, protocol: nat, i: nat)
    requires 0 < i && SpilledDownTo(ls, before, ledger, protocol, i) && LevelShouldSpill(|ls|, ledger, i - 1)
    requires |after| == |before|
    requires after[i - 1] == before[i - 1].(snap := before[i - 1].curr, curr := Merged(EMPTY))
    requires after[i].snap == before[i].snap
    requires after[i].curr == if before[i].next.Clear? then before[i].curr
                              else Output(POLICY, |before|, i, before[i].next)
    requires after[i].next == Merging(PreparedInputs(POLICY, |ls|, ledger, protocol, i, after[i].curr,
                                                     before[i - 1].curr, Shadows(ls, i - 1)))
    requires forall j :: 0 <= j < |after| && j != i && j != i - 1 ==> after[j] == before[j]
    ensures SpilledDownTo(ls, after, ledger, protocol, i - 1)
  {
    assert after[i] == LevelAfter(POLICY, ls, ledger, protocol, i);
  }

  lemma Level0Added(ls: Levels, levels: Levels, ledger: nat, protocol: nat, batch: Slot)
    requires 0 < |ls| == |levels|
    requires forall j :: 0 < j < |ls| ==> levels[j] == LevelAfter(POLICY, ls, ledger, protocol, j)
    requires levels[0] == Level(POLICY.merge(KeepDeadEntries(|ls|, 0),
                                             Inputs(CurrAfter(POLICY, ls, ledger, 0), batch, [], protocol)),
                                SnapAfter(ls, ledger, 0), Clear)
    ensures levels == Add(POLICY, ls, ledger, protocol, batch)
  {
  }
}
