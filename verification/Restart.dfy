/** Restarting merges (src/bucket/BucketList.cpp): from stored futures, or from the currs and snaps alone where those
    suffice (src/history/HistoryArchive.cpp). */
module Restart {
  import opened Wrappers
  import opened Arithmetic
  import opened Buckets
  import opened Batches
  import opened Schedule
  import opened SpillingList
  import opened BucketListState
  import opened BucketListRefinement
  import opened BucketListLawful
  import opened BucketListRun

  datatype RestartResult = Restarted(levels: Levels) | InvalidState

  /** A list as it is stored: with the futures of the levels in `kept`, the others forgotten. */
  function StoredWith(ls: Levels, kept: set<nat>): (r: Levels)
    ensures |r| == |ls|
  {
    seq(|ls|, i requires 0 <= i < |ls| => if i in kept then ls[i] else ls[i].(next := Clear))
  }

  /** makeLive: a stored merge starts again, under the limit of the restart. */
  function LiveAgain(next: Next<Slot>, limit: nat): (r: Next<Slot>) {
    if next.Merging? then Merging(next.inputs.(limit := limit)) else next
  }

  function RestartInputs(ls: Levels, ledger: nat, i: nat): (r: Inputs<Slot>)
    requires 0 < i < |ls| && ls[i - 1].snap.Merged?
  {
    var snap := ls[i - 1].snap;
    PreparedInputs(POLICY, |ls|, Mask(ledger, LevelHalf(i - 1)), snap.bucket.version, i, ls[i].curr, snap, [])
  }

  /** BucketList::restartMerges from level i on; the futures of the levels in `hashed` are not live. */
  function RestartFrom(ls: Levels, ledger: nat, limit: nat, hashed: set<nat>, i: nat): (r: RestartResult)
    requires i <= |ls|
    decreases |ls| - i
  {
    if i == |ls| then Restarted(ls)
    else if i in hashed && !ls[i].next.Clear? then
      RestartFrom(ls[i := ls[i].(next := LiveAgain(ls[i].next, limit))], ledger, limit, hashed, i + 1)
    else if i > 0 && ls[i].next.Clear? then
      var snap := ls[i - 1].snap;
      if snap == Merged(EMPTY) then Restarted(ls)
      else if snap.Failed? || snap.bucket.version < FIRST_PROTOCOL_SHADOWS_REMOVED then InvalidState
      else RestartFrom(ls[i := ls[i].(next := Merging(RestartInputs(ls, ledger, i)))], ledger, limit, hashed, i + 1)
    else RestartFrom(ls, ledger, limit, hashed, i + 1)
  }

  // ----- what restarting relies on

  /** The future of level i, if it needs no shadows, is the plain merge of the slots now in the list. */
  predicate ExactAt(ls: Levels, ledger: nat, i: nat)
    requires i < |ls|
  {
    i > 0 && !ls[i].next.Clear? && PastShadows(ls[i - 1].snap) ==>
      Future(ls, i) == MergeSlots(KeepDeadEntries(|ls|, i),
                                  Inputs(PreparedCurr(ls, ledger, i), ls[i - 1].snap, [],
                                         ls[i - 1].snap.bucket.version))
  }

  ghost predicate Resumable(ls: Levels, ledger: nat) {
    forall i :: 0 <= i < |ls| ==> ExactAt(ls, ledger, i)
  }

  lemma LimitIsOnlyALimit(keepDead: bool, a: Inputs<Slot>, b: Inputs<Slot>)
    requires a.curr == b.curr && a.snap == b.snap && a.shadows == b.shadows == []
    requires a.curr.Merged? && a.snap.Merged?
    requires a.curr.bucket.version <= a.snap.bucket.version <= a.limit
    requires a.snap.bucket.version <= b.limit
    ensures MergeSlots(keepDead, a) == MergeSlots(keepDead, b)
  {
  }

  lemma ExactStarted(ls: Levels, ledger: nat, b: Bucket, i: nat)
    requires Accepts(ls, ledger, b) && SlotsOk(After(ls, ledger, b)) && Commits(|ls|, ledger + 1, i)
    requires PastShadows(ls[i - 1].curr)
    ensures !After(ls, ledger, b)[i].next.Clear?
    ensures Future(After(ls, ledger, b), i) ==
              MergeSlots(KeepDeadEntries(|ls|, i),
                         Inputs(PreparedCurr(After(ls, ledger, b), ledger + 1, i), ls[i - 1].curr, [],
                                ls[i - 1].curr.bucket.version))
  {
    var inputs := StartedInputs(ls, ledger, b, i);
    StartedInputsOk(ls, ledger, b, i);
    PreparedFuture(ls, ledger, b, i);
    LimitIsOnlyALimit(KeepDeadEntries(|ls|, i), inputs, inputs.(limit := inputs.snap.bucket.version));
  }

  lemma {:induction false} ExactAfter(ls: Levels, ledger: nat, b: Bucket, i: nat)
    requires Accepts(ls, ledger, b) && Resumable(ls, ledger) && SlotsOk(After(ls, ledger, b)) && i < |ls|
    ensures ExactAt(After(ls, ledger, b), ledger + 1, i)
  {
    if i > 0 {
      if Commits(|ls|, ledger + 1, i) {
        AfterLevels(ls, ledger, b, i - 1);
        if PastShadows(ls[i - 1].curr) {
          ExactStarted(ls, ledger, b, i);
        }
      } else {
        NoCommitNoChange(ls, ledger, b, i);
        EmptyCurrRuleForeseesSnap(|ls|, ledger, i);
        assert ExactAt(ls, ledger, i);
      }
    }
  }

  lemma AddBatchResumable(ls: Levels, ledger: nat, m: Ledger, protocol: nat, c: Close)
    requires Represents(ls, ledger, m, protocol) && Resumable(ls, ledger)
    requires Closes(m, c.batch) && protocol <= c.batch.protocol
    ensures Resumable(AddBatch(ls, ledger + 1, c), ledger + 1)
  {
    FreshIsTheBatch(c.batch);
    var b, r, next := Fresh(c.batch).bucket, AddBatch(ls, ledger + 1, c), ledger + 1;
    BatchAccepted(ls, ledger, m, protocol, c);
    SlotsAfter(ls, ledger, b);
    forall i | 0 <= i < |r| ensures ExactAt(r, next, i) {
      ExactAfter(ls, ledger, b, i);
    }
  }

  lemma {:induction false} RunResumable(ls: Levels, ledger: nat, m: Ledger, protocol: nat, closes: seq<Close>)
    requires Represents(ls, ledger, m, protocol) && Legal(m, protocol, closes) && Resumable(ls, ledger)
    ensures Resumable(Run(ls, ledger, closes), ledger + |closes|)
    decreases |closes|
  {
    if closes != [] {
      AddBatchRepresents(ls, ledger, m, protocol, closes[0]);
      AddBatchResumable(ls, ledger, m, protocol, closes[0]);
      RunResumable(AddBatch(ls, ledger + 1, closes[0]), ledger + 1,
                   ApplyChanges(m, Changes(closes[0].batch)), closes[0].batch.protocol, closes[1..]);
    }
  }

  /** The new list meets what a restart asks of a list, so what follows holds of every run from genesis. */
  lemma {:induction false} GenesisResumable(n: nat)
    requires 2 <= n
    ensures Represents(Initial(POLICY, n), 0, map[], 0) && Resumable(Initial(POLICY, n), 0)
  {
    InitialRepresents(n);
  }

  // ----- restarting restores the futures

  lemma MaskIdempotent(v: nat, m: nat)
    requires 0 < m
    ensures Mask(Mask(v, m), m) == Mask(v, m)
  {
    var q := v / m;
    assert Mask(v, m) == q * m;
    ModOfProduct(q, m);
  }

  /** The merge a restart starts on a level is the one the list had pending there. */
  lemma RestartedFuture(ls: Levels, ledger: nat, i: nat)
    requires Lawful(ls, ledger) && Resumable(ls, ledger) && 0 < i < |ls| && LevelHalf(i - 1) <= ledger
    requires PastShadows(ls[i - 1].snap)
    ensures !ls[i].next.Clear?
    ensures MergeSlots(KeepDeadEntries(|ls|, i), RestartInputs(ls, ledger, i)) == Future(ls, i)
  {
    assert ShapeAt(ls, ledger, i) && ShapeAt(ls, ledger, i - 1) && ExactAt(ls, ledger, i);
    MaskIdempotent(ledger, LevelHalf(i - 1));
  }

  /** A stored merge that starts again has the outcome it had exactly if the limit admits its version, which is that of
      the snap it takes in. */
  lemma MadeLiveFuture(ls: Levels, ledger: nat, limit: nat, i: nat)
    requires Lawful(ls, ledger) && 0 < i < |ls| && ls[i].next.Merging?
    ensures Output(POLICY, |ls|, i, LiveAgain(ls[i].next, limit)) == Future(ls, i) <==>
              ls[i - 1].snap.bucket.version <= limit
  {
    assert ShapeAt(ls, ledger, i) && ShapeAt(ls, ledger, i - 1) && PendingAt(ls, ledger, i);
    var keepDead, inputs := KeepDeadEntries(|ls|, i), ls[i].next.inputs;
    assert POLICY.merge(keepDead, inputs) == MergeSlots(keepDead, inputs);
    assert POLICY.merge(keepDead, inputs.(limit := limit)) == MergeSlots(keepDead, inputs.(limit := limit));
  }

  /** The merge of level j needs shadows, so prepareForPublish does not clear it. */
  predicate NeedsShadows(ls: Levels, j: nat)
    requires j < |ls|
  {
    0 < j && !ls[j].next.Clear? && !PastShadows(ls[j - 1].snap)
  }

  /** Every merge that needs shadows, from level i on, is among those kept. */
  predicate ShadowsKept(ls: Levels, kept: set<nat>, i: nat) {
    forall j :: i <= j < |ls| && NeedsShadows(ls, j) ==> j in kept
  }

  /** The limit admits the merge of level j, if it is kept. */
  predicate AdmitsAt(ls: Levels, kept: set<nat>, limit: nat, j: nat)
    requires j < |ls|
  {
    0 < j && j in kept && ls[j].next.Merging? && ls[j - 1].snap.Merged? ==> ls[j - 1].snap.bucket.version <= limit
  }

  predicate Admits(ls: Levels, kept: set<nat>, limit: nat) {
    forall j :: 0 <= j < |ls| ==> AdmitsAt(ls, kept, limit, j)
  }

  /** What has become of level j once it is restarted. */
  ghost predicate RestoredAt(ls: Levels, level: Level<Slot>, kept: set<nat>, limit: nat, j: nat)
    requires j < |ls|
  {
    if j in kept then level == ls[j].(next := LiveAgain(ls[j].next, limit))
    else AlikeLevel(POLICY, |ls|, j, ls[j], level)
  }

  /** In `cur` the levels below i are restarted and the others as they were stored. */
  ghost predicate RestoredBelow(ls: Levels, cur: Levels, kept: set<nat>, limit: nat, i: nat) {
    && |cur| == |ls|
    && (forall j :: 0 <= j < |ls| && j < i ==> RestoredAt(ls, cur[j], kept, limit, j))
    && (forall j :: 0 <= j < |ls| && i <= j ==> cur[j] == StoredWith(ls, kept)[j])
  }

  lemma RestoredSlots(ls: Levels, cur: Levels, kept: set<nat>, limit: nat, i: nat, j: nat)
    requires RestoredBelow(ls, cur, kept, limit, i) && j < |ls|
    ensures cur[j].curr == ls[j].curr && cur[j].snap == ls[j].snap
  {
    if j < i {
      assert RestoredAt(ls, cur[j], kept, limit, j);
    }
  }

  lemma LaterLevelsUntouched(ls: Levels, ledger: nat, i: nat, j: nat)
    requires Lawful(ls, ledger) && 0 < i <= j < |ls| && ledger < LevelHalf(i - 1)
    ensures ls[j].next.Clear?
  {
    HalvesGrow(i - 1, j - 1);
    assert ShapeAt(ls, ledger, j);
  }

  /** The restart ends at the first level that was never used. */
  lemma RestartStops(ls: Levels, cur: Levels, ledger: nat, limit: nat, kept: set<nat>, i: nat)
    requires Lawful(ls, ledger) && 0 < i < |ls| && RestoredBelow(ls, cur, kept, limit, i) && ledger < LevelHalf(i - 1)
    ensures RestartFrom(cur, ledger, limit, kept, i) == Restarted(cur)
    ensures ShadowsKept(ls, kept, i) && RestoredBelow(ls, cur, kept, limit, |ls|)
  {
    assert ShapeAt(ls, ledger, i - 1);
    RestoredSlots(ls, cur, kept, limit, i, i - 1);
    forall j | i <= j < |ls| ensures ls[j].next.Clear? {
      LaterLevelsUntouched(ls, ledger, i, j);
    }
  }

  /** One step of the restart, unless the merge of the level needs shadows that were not kept. */
  lemma RestartStep(ls: Levels, cur: Levels, ledger: nat, limit: nat, kept: set<nat>, i: nat) returns (next: Levels)
    requires Lawful(ls, ledger) && Resumable(ls, ledger)
    requires 0 < i < |ls| && RestoredBelow(ls, cur, kept, limit, i) && LevelHalf(i - 1) <= ledger
    ensures !ls[i].next.Clear?
    ensures var ok := i in kept || PastShadows(ls[i - 1].snap);
            && (ok ==> RestoredBelow(ls, next, kept, limit, i + 1))
            && RestartFrom(cur, ledger, limit, kept, i) ==
                 if ok then RestartFrom(next, ledger, limit, kept, i + 1) else InvalidState
  {
    assert ShapeAt(ls, ledger, i) && ShapeAt(ls, ledger, i - 1);
    RestoredSlots(ls, cur, kept, limit, i, i - 1);
    if i in kept {
      next := cur[i := cur[i].(next := LiveAgain(cur[i].next, limit))];
    } else if PastShadows(ls[i - 1].snap) {
      RestartedFuture(ls, ledger, i);
      var inputs := RestartInputs(cur, ledger, i);
      assert inputs == RestartInputs(ls, ledger, i);
      assert Output(POLICY, |ls|, i, Merging(inputs)) == POLICY.merge(KeepDeadEntries(|ls|, i), inputs);
      next := cur[i := cur[i].(next := Merging(inputs))];
    } else {
      next := cur;
    }
  }

  lemma {:induction false} RestartRestores(ls: Levels, cur: Levels, ledger: nat, limit: nat, kept: set<nat>, i: nat)
    requires Lawful(ls, ledger) && Resumable(ls, ledger) && 0 < i <= |ls| && RestoredBelow(ls, cur, kept, limit, i)
    ensures var r := RestartFrom(cur, ledger, limit, kept, i);
            && (r.Restarted? <==> ShadowsKept(ls, kept, i))
            && (r.Restarted? ==> RestoredBelow(ls, r.levels, kept, limit, |ls|))
    decreases |ls| - i
  {
    if i == |ls| {
    } else if ledger < LevelHalf(i - 1) {
      RestartStops(ls, cur, ledger, limit, kept, i);
    } else {
      var next := RestartStep(ls, cur, ledger, limit, kept, i);
      if i in kept || PastShadows(ls[i - 1].snap) {
        RestartRestores(ls, next, ledger, limit, kept, i + 1);
      }
    }
  }

  /** Which restarts give back, on every level, a merge with the same outcome. */
  lemma RestoredIsAlike(ls: Levels, cur: Levels, ledger: nat, limit: nat, kept: set<nat>)
    requires Lawful(ls, ledger) && RestoredBelow(ls, cur, kept, limit, |ls|)
    ensures Alike(POLICY, ls, cur) <==> Admits(ls, kept, limit)
  {
    assert ShapeAt(ls, ledger, 0);
    forall j | 0 <= j < |ls|
      ensures AlikeLevel(POLICY, |ls|, j, ls[j], cur[j]) <==> AdmitsAt(ls, kept, limit, j)
    {
      assert RestoredAt(ls, cur[j], kept, limit, j);
      if 0 < j && j in kept && ls[j].next.Merging? {
        MadeLiveFuture(ls, ledger, limit, j);
      }
    }
  }

  /** Storing a list with the futures of some levels and restarting its merges: it does not throw exactly if every
      merge that needs shadows was kept, and then every level has a merge with the same outcome as before exactly if
      the limit of the restart admits the merges that were kept. */
  lemma RestartGivesBackFutures(ls: Levels, ledger: nat, limit: nat, kept: set<nat>)
    requires Lawful(ls, ledger) && Resumable(ls, ledger)
    ensures var r := RestartFrom(StoredWith(ls, kept), ledger, limit, kept, 0);
            && (r.Restarted? <==> ShadowsKept(ls, kept, 0))
            && (r.Restarted? ==> (Alike(POLICY, ls, r.levels) <==> Admits(ls, kept, limit)))
  {
    assert ShapeAt(ls, ledger, 0);
    var stored := StoredWith(ls, kept);
    RestartRestores(ls, stored, ledger, limit, kept, 1);
    var r := RestartFrom(stored, ledger, limit, kept, 0);
    if r.Restarted? {
      RestoredIsAlike(ls, r.levels, ledger, limit, kept);
    }
  }

  /** A limit of at least the version of the youngest bucket admits every merge. */
  lemma YoungestLimitAdmits(ls: Levels, ledger: nat, limit: nat, kept: set<nat>)
    requires Lawful(ls, ledger) && ls[0].curr.bucket.version <= limit
    ensures Admits(ls, kept, limit)
  {
    forall j | 0 <= j < |ls| ensures AdmitsAt(ls, kept, limit, j) {
      if 0 < j {
        assert VersionsAt(ls, j - 1);
        YoungerIsNewer(ls, ledger, j - 1);
      }
    }
  }

  /** What BucketList::getHash digests: the hashes of curr and snap, level by level. */
  function Hashed(ls: Levels): (r: seq<(Slot, Slot)>) {
    seq(|ls|, i requires 0 <= i < |ls| => (ls[i].curr, ls[i].snap))
  }

  lemma {:induction false} RunKeepsAlike(a: Levels, b: Levels, ledger: nat, closes: seq<Close>, dones: seq<set<nat>>)
    requires Alike(POLICY, a, b) && |dones| == |closes|
    ensures Alike(POLICY, Run(a, ledger, closes), Run(b, ledger, WithDones(closes, dones)))
    decreases |closes|
  {
    if closes != [] {
      var c := WithDones(closes, dones);
      assert c[1..] == WithDones(closes[1..], dones[1..]);
      BatchKeepsAlike(a, b, ledger + 1, closes[0], c[0]);
      RunKeepsAlike(AddBatch(a, ledger + 1, closes[0]), AddBatch(b, ledger + 1, c[0]), ledger + 1, closes[1..],
                    dones[1..]);
    }
  }

  lemma BatchKeepsAlike(a: Levels, b: Levels, ledger: nat, c: Close, c': Close)
    requires Alike(POLICY, a, b) && c.batch == c'.batch
    ensures Alike(POLICY, AddBatch(a, ledger, c), AddBatch(b, ledger, c'))
  {
    AddKeepsAlike(POLICY, a, b, ledger, c.batch.protocol, Fresh(c.batch));
  }

  /** The same batches, with merges finishing at other times. */
  function WithDones(closes: seq<Close>, dones: seq<set<nat>>): (r: seq<Close>)
    requires |dones| == |closes|
    ensures |r| == |closes|
  {
    seq(|closes|, i requires 0 <= i < |closes| => closes[i].(done := dones[i]))
  }

  /** The hash of a list that is stored, restarted and continued; None if the restart throws. */
  function HashAfterRestart(stopped: Levels, at: nat, limit: nat, kept: set<nat>, after: seq<Close>,
                            dones: seq<set<nat>>): (r: Option<seq<(Slot, Slot)>>)
    requires |dones| == |after|
  {
    var restarted := RestartFrom(StoredWith(stopped, kept), at, limit, kept, 0);
    if restarted.InvalidState? then None
    else Some(Hashed(Run(restarted.levels, at, WithDones(after, dones))))
  }

  lemma RestartedRunIsAlike(ls: Levels, ledger: nat, limit: nat, kept: set<nat>, after: seq<Close>,
                            dones: seq<set<nat>>)
    requires Lawful(ls, ledger) && Resumable(ls, ledger) && |dones| == |after|
    requires ls[0].curr.bucket.version <= limit && ShadowsKept(ls, kept, 0)
    ensures HashAfterRestart(ls, ledger, limit, kept, after, dones) == Some(Hashed(Run(ls, ledger, after)))
  {
    RestartGivesBackFutures(ls, ledger, limit, kept);
    YoungestLimitAdmits(ls, ledger, limit, kept);
    AlikeHashes(ls, RestartFrom(StoredWith(ls, kept), ledger, limit, kept, 0).levels, ledger, after, dones);
  }

  lemma {:induction false} AlikeHashes(a: Levels, b: Levels, ledger: nat, closes: seq<Close>, dones: seq<set<nat>>)
    requires Alike(POLICY, a, b) && |dones| == |closes|
    ensures Hashed(Run(b, ledger, WithDones(closes, dones))) == Hashed(Run(a, ledger, closes))
  {
    RunKeepsAlike(a, b, ledger, closes, dones);
    SameHashes(Run(a, ledger, closes), Run(b, ledger, WithDones(closes, dones)));
  }

  lemma SameHashes(a: Levels, b: Levels)
    requires Alike(POLICY, a, b)
    ensures Hashed(a) == Hashed(b)
  {
    forall i | 0 <= i < |a| ensures Hashed(a)[i] == Hashed(b)[i] {
      assert AlikeLevel(POLICY, |a|, i, a[i], b[i]);
    }
  }

  /** A node that stops after any ledger and restarts from its list, stored with at least the futures that need
      shadows, has after every later ledger the hash of a node that never stopped, whenever the merges of either
      finish. */
  lemma {:induction false} RestartIsInvisible(ls: Levels, ledger: nat, m: Ledger, protocol: nat, limit: nat,
                                              kept: set<nat>, before: seq<Close>, after: seq<Close>,
                                              dones: seq<set<nat>>)
    requires Represents(ls, ledger, m, protocol) && Resumable(ls, ledger)
    requires Legal(m, protocol, before) && LastProtocol(protocol, before) <= limit && |dones| == |after|
    requires ShadowsKept(Run(ls, ledger, before), kept, 0)
    ensures var stopped, at := Run(ls, ledger, before), ledger + |before|;
            HashAfterRestart(stopped, at, limit, kept, after, dones) == Some(Hashed(Run(stopped, at, after)))
  {
    RunRepresents(ls, ledger, m, protocol, before);
    RunResumable(ls, ledger, m, protocol, before);
    RestartedRunIsAlike(Run(ls, ledger, before), ledger + |before|, limit, kept, after, dones);
  }
}
