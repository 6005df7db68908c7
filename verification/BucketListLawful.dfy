/** Adding a batch keeps a list lawful. */
module BucketListLawful {
  import opened LedgerCmp
  import opened Lifecycle
  import opened Wrappers
  import opened Buckets
  import opened Schedule
  import opened SpillingList
  import opened BucketListState
  import opened BucketListRefinement

  // ----- which slots are in use

  lemma ShapeAfter(ls: Levels, ledger: nat, b: Bucket, i: nat)
    requires Accepts(ls, ledger, b) && i < |ls|
    ensures ShapeAt(After(ls, ledger, b), ledger + 1, i)
  {
    AfterLevels(ls, ledger, b, i);
    assert ShapeAt(ls, ledger, i);
    if i == 0 {
      Curr0After(ls, ledger, b);
      Shape0Follows(ls, ledger, After(ls, ledger, b));
    } else {
      PromotedInUse(ls, ledger, i);
      ShapeFollows(ls, ledger, b.version, After(ls, ledger, b), i);
    }
  }

  lemma Shape0Follows(ls: Levels, ledger: nat, ls': Levels)
    requires 2 <= |ls| == |ls'| && ShapeAt(ls, ledger, 0) && InUse(ls'[0].curr) && ls'[0].next.Clear?
    requires ls'[0].snap == SnapAfter(ls, ledger + 1, 0)
    ensures ShapeAt(ls', ledger + 1, 0)
  {
    SpillLedgers(|ls|, ledger + 1, 0);
  }

  lemma PromotedInUse(ls: Levels, ledger: nat, i: nat)
    requires Lawful(ls, ledger) && 0 < i < |ls|
    ensures ShapeAt(ls, ledger, i - 1)
    ensures i + 1 < |ls| && !ls[i].next.Clear? ==> InUse(Future(ls, i))
  {
    assert ShapeAt(ls, ledger, i - 1) && ShapeAt(ls, ledger, i) && PendingAt(ls, ledger, i);
  }

  lemma ShapeFollows(ls: Levels, ledger: nat, version: nat, ls': Levels, i: nat)
    requires 0 < i < |ls| == |ls'| && ShapeAt(ls, ledger, i)
    requires i + 1 < |ls| && !ls[i].next.Clear? ==> InUse(Future(ls, i))
    requires ls'[i].snap == SnapAfter(ls, ledger + 1, i) && ls'[i].curr == CurrAfter(POLICY, ls, ledger + 1, i)
    requires ls'[i].next == NextAfter(POLICY, ls, ledger + 1, version, i)
    ensures ShapeAt(ls', ledger + 1, i)
  {
    var n := |ls|;
    if i + 1 < n {
      SpillLedgers(n, ledger + 1, i);
    }
    SpillLedgers(n, ledger + 1, i - 1);
    assert LevelHalf(i) == 2 * LevelSize(i - 1);
    if LevelShouldSpill(n, ledger + 1, i) {
      SpillsAreNested(n, ledger + 1, i);
    }
  }

  // ----- versions

  /** A promoted bucket carries the version of the snap it took in. */
  lemma CurrAfterVersion(ls: Levels, ledger: nat, i: nat)
    requires Lawful(ls, ledger) && Commits(|ls|, ledger + 1, i)
    ensures SlotOk(CurrAfter(POLICY, ls, ledger + 1, i))
    ensures CurrAfter(POLICY, ls, ledger + 1, i).bucket.version == ls[i - 1].snap.bucket.version
  {
    assert ShapeAt(ls, ledger, i) && ShapeAt(ls, ledger, i - 1) && PendingAt(ls, ledger, i);
  }

  lemma NoCommitNoChange(ls: Levels, ledger: nat, b: Bucket, i: nat)
    requires 0 < i < |ls| && !Commits(|ls|, ledger + 1, i)
    ensures After(ls, ledger, b)[i] == ls[i]
    ensures After(ls, ledger, b)[i - 1].snap == ls[i - 1].snap
  {
    AfterLevels(ls, ledger, b, i);
    AfterLevels(ls, ledger, b, i - 1);
    if LevelShouldSpill(|ls|, ledger + 1, i) {
      SpillsAreNested(|ls|, ledger + 1, i);
    }
  }

  lemma SlotsAfter(ls: Levels, ledger: nat, b: Bucket)
    requires Accepts(ls, ledger, b)
    ensures SlotsOk(After(ls, ledger, b))
  {
    var ls' := After(ls, ledger, b);
    forall i | 0 <= i < |ls| ensures SlotOk(ls'[i].curr) && SlotOk(ls'[i].snap) {
      AfterLevels(ls, ledger, b, i);
      CurrAfterOk(ls, ledger, i);
      if i == 0 {
        Curr0After(ls, ledger, b);
      }
    }
  }

  lemma VersionsAfter(ls: Levels, ledger: nat, b: Bucket, i: nat)
    requires Accepts(ls, ledger, b) && i < |ls|
    requires SlotsOk(After(ls, ledger, b))
    ensures VersionsAt(After(ls, ledger, b), i)
  {
    assert VersionsAt(ls, i);
    AfterLevels(ls, ledger, b, i);
    if i == 0 {
      Curr0After(ls, ledger, b);
    } else {
      assert VersionsAt(ls, i - 1);
      AfterLevels(ls, ledger, b, i - 1);
      if Commits(|ls|, ledger + 1, i) {
        CurrAfterVersion(ls, ledger, i);
      } else {
        NoCommitNoChange(ls, ledger, b, i);
      }
    }
  }

  lemma {:induction false} YoungerIsNewer(ls: Levels, ledger: nat, i: nat)
    requires Lawful(ls, ledger) && i < |ls|
    ensures ls[i].curr.bucket.version <= ls[0].curr.bucket.version
  {
    assert VersionsAt(ls, i);
    if i > 0 {
      assert VersionsAt(ls, i - 1);
      YoungerIsNewer(ls, ledger, i - 1);
    }
  }

  // ----- the last level

  lemma PastShadowsAfter(ls: Levels, ledger: nat, b: Bucket, i: nat)
    requires Accepts(ls, ledger, b) && i < |ls| - 1
    requires forall j :: 0 <= j < |ls| - 1 ==> PastShadows(ls[j].curr) && PastShadows(ls[j].snap)
    ensures PastShadows(After(ls, ledger, b)[i].curr) && PastShadows(After(ls, ledger, b)[i].snap)
  {
    AfterLevels(ls, ledger, b, i);
    if i == 0 {
      Curr0After(ls, ledger, b);
      assert PastShadows(ls[0].curr);
    } else if Commits(|ls|, ledger + 1, i) {
      CurrAfterVersion(ls, ledger, i);
      assert PastShadows(ls[i - 1].snap);
    } else {
      NoCommitNoChange(ls, ledger, b, i);
    }
  }

  lemma BottomEntryAfter(ls: Levels, ledger: nat, b: Bucket, k: LedgerKey)
    requires Lawful(ls, ledger)
    ensures var c := At(After(ls, ledger, b)[|ls| - 1].curr, k);
            && (c.Some? ==> !c.value.Dead?)
            && (c.Some? && c.value.Live? ==>
                  forall i :: 0 <= i < |ls| - 1 ==> PastShadows(ls[i].curr) && PastShadows(ls[i].snap))
  {
    var n := |ls|;
    assert BottomKey(ls, k);
    AfterLevels(ls, ledger, b, n - 1);
    if Commits(n, ledger + 1, n - 1) && !ls[n - 1].next.Clear? {
      BottomPromoted(ls, ledger, k);
    }
  }

  lemma BottomAfter(ls: Levels, ledger: nat, b: Bucket, k: LedgerKey)
    requires Accepts(ls, ledger, b)
    ensures BottomKey(After(ls, ledger, b), k)
  {
    var n, ls' := |ls|, After(ls, ledger, b);
    var c := At(ls'[n - 1].curr, k);
    BottomEntryAfter(ls, ledger, b, k);
    if c.Some? && c.value.Live? {
      forall i | 0 <= i < n - 1 ensures PastShadows(ls'[i].curr) && PastShadows(ls'[i].snap) {
        PastShadowsAfter(ls, ledger, b, i);
      }
    }
  }

  // ----- pending merges

  /** A merge that is still pending stays as it was. */
  lemma PendingKept(ls: Levels, ledger: nat, b: Bucket, i: nat)
    requires Accepts(ls, ledger, b) && 0 < i < |ls| && !Commits(|ls|, ledger + 1, i)
    requires SlotsOk(After(ls, ledger, b))
    ensures PendingAt(After(ls, ledger, b), ledger + 1, i)
  {
    var ls' := After(ls, ledger, b);
    NoCommitNoChange(ls, ledger, b, i);
    if !ls[i].next.Clear? {
      assert PendingAt(ls, ledger, i);
      var next := ledger + 1;
      forall k ensures PendingKey(ls', next, i, k) {
        EmptyCurrRuleForeseesSnap(|ls|, ledger, i);
        assert PendingKey(ls, ledger, i, k);
        if Covered(ls, i, k) {
          CoveredKept(ls, ledger, b, i, k);
        }
      }
    }
  }

  lemma CoveredKept(ls: Levels, ledger: nat, b: Bucket, i: nat, k: LedgerKey)
    requires Accepts(ls, ledger, b) && 0 < i < |ls| && !Commits(|ls|, ledger + 1, i)
    requires Covered(ls, i, k)
    ensures Covered(After(ls, ledger, b), i, k)
  {
    StateStep(ls, ledger, b, k);
    forall x ensures TailFromCurr(After(ls, ledger, b), i, Some(Present(x)), k) == State(After(ls, ledger, b), k) {
      assert TailFromCurr(ls, i, Some(Present(x)), k) == State(ls, k);
      TailStep(ls, ledger, b, i, Some(Present(x)), k);
    }
  }

  lemma {:induction false} ShadowsHaveEntry(ls: Levels, i: nat, j: nat, k: LedgerKey)
    requires i <= |ls| && j < 2 * i && At(Shadows(ls, i)[j], k).Some?
    ensures HasEntry(ls, i, k)
  {
    if j < 2 * (i - 1) {
      ShadowsHaveEntry(ls, i - 1, j, k);
    }
  }

  lemma {:induction false} ShadowsMerged(ls: Levels, i: nat)
    requires i <= |ls| && SlotsOk(ls)
    ensures AllMerged(Shadows(ls, i))
  {
    if i > 0 {
      ShadowsMerged(ls, i - 1);
    }
  }

  lemma UpdatePresent(t: Option<KeyState>, c: Option<Change>, s: Option<Change>)
    requires !Clash(c, s) && Compose(c, s).Some? && Compose(c, s).value.Live?
    ensures s.Some? && Step(t, s).Some? ==> Step(t, s).value.Present?
    ensures c.Some? && c.value.Live? && Step(t, c).Some? ==> Step(t, c).value.Present?
    ensures s.None? ==> c.Some? && c.value.Live?
  {
  }

  /** The state after a snap that is merged into level i; `t` is the state the merge starts from. */
  lemma PromotedUpdate(ls: Levels, ledger: nat, i: nat, k: LedgerKey)
    requires Lawful(ls, ledger) && i < |ls| - 1 && Commits(|ls|, ledger + 1, i)
    requires At(CurrAfter(POLICY, ls, ledger + 1, i), k).Some?
             && At(CurrAfter(POLICY, ls, ledger + 1, i), k).value.Live?
    requires Before(ls, i, k).Some? && Step(Before(ls, i, k), At(ls[i - 1].snap, k)).Some?
    ensures Step(Before(ls, i, k), At(ls[i - 1].snap, k)).value.Present?
  {
    var t := if LevelShouldSpill(|ls|, ledger + 1, i) then Before(ls, i, k)
             else Step(Before(ls, i + 1, k), At(ls[i].snap, k));
    PromotedCurr(ls, ledger, i, t, k);
  }

  /** If a merge started now would update a key, the key is present after the curr just snapped. */
  lemma {:induction false} UpdateMeansPresent(ls: Levels, ledger: nat, b: Bucket, i: nat, k: LedgerKey)
    requires Lawful(ls, ledger) && i < |ls| - 1 && Commits(|ls|, ledger + 1, i)
    requires var c, s := PendingCurr(After(ls, ledger, b), ledger + 1, i, k), At(ls[i - 1].curr, k);
             !Clash(c, s) && Compose(c, s).Some? && Compose(c, s).value.Live?
    ensures Before(ls, i - 1, k).Some? && Before(ls, i - 1, k).value.Present?
  {
    assert State(ls, k).Some?;
    BeforeDefined(ls, i - 1, k);
    var c, s := PendingCurr(After(ls, ledger, b), ledger + 1, i, k), At(ls[i - 1].curr, k);
    UpdatePresent(Step(Before(ls, i, k), At(ls[i - 1].snap, k)), c, s);
    if s.None? {
      AfterLevels(ls, ledger, b, i);
      PromotedUpdate(ls, ledger, i, k);
    }
  }

  /** An update elided because a shadow holds its key stays hidden. */
  lemma CoveredAfterElision(ls: Levels, ledger: nat, b: Bucket, i: nat, k: LedgerKey)
    requires Accepts(ls, ledger, b) && i < |ls| - 1 && Commits(|ls|, ledger + 1, i)
    requires Before(ls, i - 1, k).Some? && Before(ls, i - 1, k).value.Present?
    requires HasEntry(ls, i - 1, k)
    ensures Covered(After(ls, ledger, b), i, k)
  {
    StateStep(ls, ledger, b, k);
    StateFromBefore(ls, i - 1, k);
    forall x ensures TailFromCurr(After(ls, ledger, b), i, Some(Present(x)), k) == State(After(ls, ledger, b), k) {
      EntryHidesBody(ls, i - 1, x, Before(ls, i - 1, k).value.body, k);
      TailStep(ls, ledger, b, i, Some(Present(x)), k);
    }
  }

  /** The slots a merge is started from never clash. */
  lemma PreparedNoClash(ls': Levels, i: nat, k: LedgerKey)
    requires 0 < i < |ls'| && State(ls', k).Some?
    requires BottomKey(ls', k)
    ensures !Clash(At(ls'[i].curr, k), At(ls'[i - 1].snap, k))
  {
    BeforeDefined(ls', i - 1, k);
    if i + 1 < |ls'| {
      ComposeIsSequencing(Step(Before(ls', i + 1, k), At(ls'[i].snap, k)), At(ls'[i].curr, k), At(ls'[i - 1].snap, k));
    }
  }

  function PreparedCurr(ls': Levels, ledger: nat, i: nat): (r: Slot)
    requires i < |ls'|
  {
    if ShouldMergeWithEmptyCurr(|ls'|, ledger, i) then Merged(EMPTY) else ls'[i].curr
  }

  function PreparedShadows(ls: Levels, i: nat): (r: seq<Slot>)
    requires 0 < i < |ls|
  {
    if UsesShadows(ls[i - 1].curr) then Shadows(ls, i - 1) else []
  }

  /** The merge that a commit starts. */
  lemma PreparedFuture(ls: Levels, ledger: nat, b: Bucket, i: nat)
    requires Commits(|ls|, ledger + 1, i)
    ensures !After(ls, ledger, b)[i].next.Clear?
    ensures Future(After(ls, ledger, b), i) ==
              MergeSlots(KeepDeadEntries(|ls|, i),
                         Inputs(PreparedCurr(After(ls, ledger, b), ledger + 1, i), ls[i - 1].curr,
                                PreparedShadows(ls, i), b.version))
  {
    AfterLevels(ls, ledger, b, i);
    var inputs := Inputs(PreparedCurr(After(ls, ledger, b), ledger + 1, i), ls[i - 1].curr, PreparedShadows(ls, i),
                         b.version);
    assert After(ls, ledger, b)[i].next == Merging(inputs);
    assert Future(After(ls, ledger, b), i) == POLICY.merge(KeepDeadEntries(|ls|, i), inputs);
  }

  /** Merging slots that do not clash, the older one of no newer version, succeeds. */
  lemma MergeOfSlots(keepDead: bool, inputs: Inputs<Slot>)
    requires SlotOk(inputs.curr) && SlotOk(inputs.snap) && InUse(inputs.snap)
    requires inputs.curr.bucket.version <= inputs.snap.bucket.version <= inputs.limit
    requires AllMerged(inputs.shadows) && (inputs.shadows == [] || UsesShadows(inputs.snap))
    requires forall k :: !Clash(At(inputs.curr, k), At(inputs.snap, k))
    ensures var r := MergeSlots(keepDead, inputs);
            var s := Setting(inputs.snap.bucket.version, Contents(inputs.shadows), keepDead);
            && SlotOk(r)
            && r.bucket.version == inputs.snap.bucket.version
            && forall k :: At(r, k) == s.Emit(Compose(At(inputs.curr, k), At(inputs.snap, k)))
  {
    forall k ensures !Clash(Get(inputs.curr.bucket, k), Get(inputs.snap.bucket, k)) {
      assert !Clash(At(inputs.curr, k), At(inputs.snap, k));
    }
    assert inputs.shadows == [] ==> Contents(inputs.shadows) == [];
    assert MergeVersion(inputs.curr.bucket, inputs.snap.bucket, Contents(inputs.shadows)) == inputs.snap.bucket.version;
    MergeSucceeds(inputs.limit, inputs.curr.bucket, inputs.snap.bucket, Contents(inputs.shadows), keepDead);
  }

  function StartedInputs(ls: Levels, ledger: nat, b: Bucket, i: nat): (r: Inputs<Slot>)
    requires 0 < i < |ls|
  {
    Inputs(PreparedCurr(After(ls, ledger, b), ledger + 1, i), ls[i - 1].curr, PreparedShadows(ls, i), b.version)
  }

  lemma SnappedInUse(ls: Levels, ledger: nat, i: nat)
    requires Lawful(ls, ledger) && i < |ls| && LevelShouldSpill(|ls|, ledger + 1, i)
    ensures InUse(ls[i].curr)
  {
    SpillLedgers(|ls|, ledger + 1, i);
    assert ShapeAt(ls, ledger, i);
    if i > 0 {
      assert LevelHalf(i) == 2 * LevelSize(i - 1);
    }
  }

  lemma StartedInputsOk(ls: Levels, ledger: nat, b: Bucket, i: nat)
    requires Accepts(ls, ledger, b) && Commits(|ls|, ledger + 1, i)
    requires SlotsOk(After(ls, ledger, b))
    ensures var inputs := StartedInputs(ls, ledger, b, i);
            && SlotOk(inputs.curr) && SlotOk(inputs.snap) && InUse(inputs.snap)
            && inputs.curr.bucket.version <= inputs.snap.bucket.version <= inputs.limit
            && AllMerged(inputs.shadows) && (inputs.shadows == [] || UsesShadows(inputs.snap))
  {
    AfterLevels(ls, ledger, b, i - 1);
    ShadowsMerged(ls, i - 1);
    SnappedInUse(ls, ledger, i - 1);
    VersionsAfter(ls, ledger, b, i);
    YoungerIsNewer(ls, ledger, i - 1);
  }

  lemma StartedNoClash(ls: Levels, ledger: nat, b: Bucket, i: nat, k: LedgerKey)
    requires Commits(|ls|, ledger + 1, i)
    requires State(After(ls, ledger, b), k).Some? && BottomKey(After(ls, ledger, b), k)
    ensures At(StartedInputs(ls, ledger, b, i).curr, k) == PendingCurr(After(ls, ledger, b), ledger + 1, i, k)
    ensures !Clash(At(StartedInputs(ls, ledger, b, i).curr, k), At(ls[i - 1].curr, k))
  {
    AfterLevels(ls, ledger, b, i - 1);
    PreparedNoClash(After(ls, ledger, b), i, k);
  }

  lemma ElidedIsCovered(ls: Levels, ledger: nat, b: Bucket, i: nat, k: LedgerKey)
    requires Accepts(ls, ledger, b) && i < |ls| - 1 && Commits(|ls|, ledger + 1, i)
    requires AllMerged(PreparedShadows(ls, i)) && Shadowed(Contents(PreparedShadows(ls, i)), k)
    requires var c, s := PendingCurr(After(ls, ledger, b), ledger + 1, i, k), At(ls[i - 1].curr, k);
             !Clash(c, s) && Compose(c, s).Some? && Compose(c, s).value.Live?
    ensures Covered(After(ls, ledger, b), i, k)
  {
    var shadows := Contents(PreparedShadows(ls, i));
    var j :| 0 <= j < |shadows| && Get(shadows[j], k).Some?;
    ShadowsHaveEntry(ls, i - 1, j, k);
    UpdateMeansPresent(ls, ledger, b, i, k);
    CoveredAfterElision(ls, ledger, b, i, k);
  }

  ghost predicate UpdateShadowed(ls: Levels, ledger: nat, b: Bucket, i: nat, k: LedgerKey)
    requires 0 < i < |ls|
  {
    var c, s := PendingCurr(After(ls, ledger, b), ledger + 1, i, k), At(ls[i - 1].curr, k);
    && !Clash(c, s) && Compose(c, s).Some? && Compose(c, s).value.Live?
    && AllMerged(PreparedShadows(ls, i)) && Shadowed(Contents(PreparedShadows(ls, i)), k)
  }

  /** A merge that elides only what it may elide holds what a pending merge must. */
  lemma EmittedKey(ls: Levels, ledger: nat, i: nat, setting: Setting, k: LedgerKey)
    requires 0 < i < |ls| && !ls[i].next.Clear?
    requires setting.KeepsLifecycleEntries() && setting.keepDead == KeepDeadEntries(|ls|, i)
    requires var c, s := PendingCurr(ls, ledger, i, k), At(ls[i - 1].snap, k);
             && !Clash(c, s)
             && At(Future(ls, i), k) == setting.Emit(Compose(c, s))
             && (Compose(c, s).Some? && Compose(c, s).value.Live? && Shadowed(setting.shadows, k) ==>
                   i + 1 < |ls| && Covered(ls, i, k))
    ensures PendingKey(ls, ledger, i, k)
  {
  }

  lemma {:induction false} NoShadowOnLastLevel(ls: Levels, ledger: nat, b: Bucket, k: LedgerKey)
    requires 2 <= |ls| && Commits(|ls|, ledger + 1, |ls| - 1)
    requires State(After(ls, ledger, b), k).Some? && BottomKey(After(ls, ledger, b), k)
    ensures !UpdateShadowed(ls, ledger, b, |ls| - 1, k)
  {
    AfterLevels(ls, ledger, b, |ls| - 2);
    if UpdateShadowed(ls, ledger, b, |ls| - 1, k) {
      BottomUpdate(After(ls, ledger, b), ledger, k);
    }
  }

  lemma StartedKey(ls: Levels, ledger: nat, b: Bucket, i: nat, k: LedgerKey)
    requires Accepts(ls, ledger, b) && Commits(|ls|, ledger + 1, i)
    requires State(After(ls, ledger, b), k).Some? && BottomKey(After(ls, ledger, b), k)
    requires AllMerged(PreparedShadows(ls, i)) && UpdateShadowed(ls, ledger, b, i, k)
    ensures i + 1 < |ls| && Covered(After(ls, ledger, b), i, k)
  {
    if i + 1 == |ls| {
      NoShadowOnLastLevel(ls, ledger, b, k);
      assert false;
    }
    ElidedIsCovered(ls, ledger, b, i, k);
  }

  lemma PendingStarted(ls: Levels, ledger: nat, b: Bucket, i: nat)
    requires Accepts(ls, ledger, b) && Commits(|ls|, ledger + 1, i)
    requires SlotsOk(After(ls, ledger, b)) && KeysOk(After(ls, ledger, b))
    ensures PendingAt(After(ls, ledger, b), ledger + 1, i)
  {
    var ls', inputs, next := After(ls, ledger, b), StartedInputs(ls, ledger, b, i), ledger + 1;
    PreparedFuture(ls, ledger, b, i);
    StartedInputsOk(ls, ledger, b, i);
    AfterLevels(ls, ledger, b, i - 1);
    forall k ensures !Clash(At(inputs.curr, k), At(inputs.snap, k)) {
      assert State(ls', k).Some?;
      StartedNoClash(ls, ledger, b, i, k);
    }
    MergeOfSlots(KeepDeadEntries(|ls|, i), inputs);
    forall k ensures PendingKey(ls', next, i, k) {
      assert State(ls', k).Some?;
      StartedNoClash(ls, ledger, b, i, k);
      if UpdateShadowed(ls, ledger, b, i, k) {
        StartedKey(ls, ledger, b, i, k);
      }
      EmittedKey(ls', next, i, Setting(inputs.snap.bucket.version, Contents(inputs.shadows),
                                       KeepDeadEntries(|ls|, i)), k);
    }
  }

  ghost predicate KeysOk(ls: Levels) {
    && 0 < |ls|
    && (forall k :: State(ls, k).Some?)
    && (forall k :: BottomKey(ls, k))
  }

  /** Only an update of an update is an update on the last level, and there are none of those while
      shadows are in use. */
  lemma BottomUpdate(ls': Levels, ledger: nat, k: LedgerKey)
    requires 2 <= |ls'| && BottomKey(ls', k) && State(ls', k).Some?
    requires var c, s := PendingCurr(ls', ledger + 1, |ls'| - 1, k), At(ls'[|ls'| - 2].snap, k);
             !Clash(c, s) && Compose(c, s).Some? && Compose(c, s).value.Live?
    ensures !UsesShadows(ls'[|ls'| - 2].snap)
  {
    BeforeDefined(ls', |ls'| - 2, k);
    assert PastShadows(ls'[|ls'| - 2].snap);
  }

  lemma LevelAfterOk(ls: Levels, ledger: nat, b: Bucket, i: nat)
    requires Accepts(ls, ledger, b) && i < |ls|
    requires SlotsOk(After(ls, ledger, b)) && KeysOk(After(ls, ledger, b))
    ensures ShapeAt(After(ls, ledger, b), ledger + 1, i)
    ensures VersionsAt(After(ls, ledger, b), i)
    ensures PendingAt(After(ls, ledger, b), ledger + 1, i)
  {
    ShapeAfter(ls, ledger, b, i);
    VersionsAfter(ls, ledger, b, i);
    if i > 0 {
      if Commits(|ls|, ledger + 1, i) {
        PendingStarted(ls, ledger, b, i);
      } else {
        PendingKept(ls, ledger, b, i);
      }
    }
  }

  lemma KeysAfter(ls: Levels, ledger: nat, b: Bucket)
    requires Accepts(ls, ledger, b)
    ensures KeysOk(After(ls, ledger, b))
    ensures forall k :: State(After(ls, ledger, b), k) == Step(State(ls, k), Get(b, k))
  {
    var ls' := After(ls, ledger, b);
    forall k ensures State(ls', k) == Step(State(ls, k), Get(b, k)) && State(ls', k).Some? {
      StateStep(ls, ledger, b, k);
      assert Step(State(ls, k), Get(b, k)).Some?;
    }
    forall k ensures BottomKey(ls', k) {
      BottomAfter(ls, ledger, b, k);
    }
  }

  /** Adding a batch keeps a list lawful and takes one lifecycle step on every key. */
  lemma AddKeepsLawful(ls: Levels, ledger: nat, b: Bucket)
    requires Accepts(ls, ledger, b)
    ensures Lawful(After(ls, ledger, b), ledger + 1)
    ensures After(ls, ledger, b)[0].curr.bucket.version == b.version
    ensures forall k :: State(After(ls, ledger, b), k) == Step(State(ls, k), Get(b, k))
  {
    var ls', next := After(ls, ledger, b), ledger + 1;
    SlotsAfter(ls, ledger, b);
    Curr0After(ls, ledger, b);
    KeysAfter(ls, ledger, b);
    forall i | 0 <= i < |ls'|
      ensures ShapeAt(ls', next, i) && VersionsAt(ls', i) && PendingAt(ls', next, i)
    {
      LevelAfterOk(ls, ledger, b, i);
    }
  }
}
