/** Adding a batch to a lawful list keeps it lawful and adds the batch's lifecycle step to every key,
    whatever spills, promotions, elisions and drops of deletions go with it. */
module BucketListRefinement {
  import opened LedgerCmp
  import opened Lifecycle
  import opened Wrappers
  import opened Buckets
  import opened Schedule
  import opened SpillingList
  import opened BucketListState

  /** A bucket that can be added as the next batch. */
  ghost predicate Accepts(ls: Levels, ledger: nat, b: Bucket) {
    && Lawful(ls, ledger)
    && WellFormed(b)
    && FIRST_PROTOCOL_SUPPORTING_INITENTRY_AND_METAENTRY <= b.version
    && ls[0].curr.bucket.version <= b.version
    && forall k :: Step(State(ls, k), Get(b, k)).Some?
  }

  function After(ls: Levels, ledger: nat, b: Bucket): (r: Levels)
    ensures |r| == |ls|
  {
    Add(POLICY, ls, ledger + 1, b.version, Merged(b))
  }

  // ----- slots

  lemma CurrAfterOk(ls: Levels, ledger: nat, i: nat)
    requires Lawful(ls, ledger) && i < |ls|
    ensures SlotOk(CurrAfter(POLICY, ls, ledger + 1, i))
  {
    assert PendingAt(ls, ledger, i);
  }

  lemma Curr0NoClash(ls: Levels, ledger: nat, b: Bucket, k: LedgerKey)
    requires Accepts(ls, ledger, b)
    ensures !Clash(At(CurrAfter(POLICY, ls, ledger + 1, 0), k), Get(b, k))
  {
    StateFromBefore(ls, 0, k);
    BeforeDefined(ls, 0, k);
    assert Step(State(ls, k), Get(b, k)).Some?;
    ComposeIsSequencing(Step(Before(ls, 1, k), At(ls[0].snap, k)), At(ls[0].curr, k), Get(b, k));
  }

  lemma Level0Merge(ls: Levels, ledger: nat, b: Bucket)
    requires 2 <= |ls|
    requires CurrAfter(POLICY, ls, ledger + 1, 0).Merged?
    ensures After(ls, ledger, b)[0].curr == Merge(b.version, CurrAfter(POLICY, ls, ledger + 1, 0).bucket, b, [], true)
  {
    var inputs := Inputs(CurrAfter(POLICY, ls, ledger + 1, 0), Merged(b), [], b.version);
    assert After(ls, ledger, b)[0].curr == POLICY.merge(KeepDeadEntries(|ls|, 0), inputs);
    assert POLICY.merge(true, inputs) == MergeSlots(true, inputs);
    assert Contents(inputs.shadows) == [];
  }

  /** Level 0 takes in the batch. */
  lemma Curr0After(ls: Levels, ledger: nat, b: Bucket)
    requires Accepts(ls, ledger, b)
    ensures var c0, c1 := CurrAfter(POLICY, ls, ledger + 1, 0), After(ls, ledger, b)[0].curr;
            && SlotOk(c1) && c1.bucket.version == b.version
            && forall k :: !Clash(At(c0, k), Get(b, k)) && At(c1, k) == Compose(At(c0, k), Get(b, k))
  {
    var c0 := CurrAfter(POLICY, ls, ledger + 1, 0);
    CurrAfterOk(ls, ledger, 0);
    forall k ensures !Clash(Get(c0.bucket, k), Get(b, k)) {
      Curr0NoClash(ls, ledger, b, k);
    }
    MergeSucceeds(b.version, c0.bucket, b, [], true);
    var s := Setting(b.version, [], true);
    Level0Merge(ls, ledger, b);
    forall k
      ensures !Clash(At(c0, k), Get(b, k)) && At(After(ls, ledger, b)[0].curr, k) == Compose(At(c0, k), Get(b, k))
    {
      var m := Compose(Get(c0.bucket, k), Get(b, k));
      assert s.Emit(m) == m;
    }
  }

  // ----- one lifecycle step per key

  /** What promoting the future of level j does to a key: it takes the steps of the slots merged,
      unless it skips an update that younger slots hide. */
  lemma PromotedCurr(ls: Levels, ledger: nat, j: nat, t: Option<KeyState>, k: LedgerKey)
    requires Lawful(ls, ledger) && 0 < j < |ls| - 1 && Commits(|ls|, ledger + 1, j)
    requires var c := if LevelShouldSpill(|ls|, ledger + 1, j) then None else At(ls[j].curr, k);
             Step(Step(t, c), At(ls[j - 1].snap, k)).Some?
    ensures var c := if LevelShouldSpill(|ls|, ledger + 1, j) then None else At(ls[j].curr, k);
            var t2 := Step(Step(t, c), At(ls[j - 1].snap, k));
            var t1 := Step(t, At(CurrAfter(POLICY, ls, ledger + 1, j), k));
            t1 == t2 || (t1 == t && t.Some? && t.value.Present? && t2.value.Present? && Covered(ls, j, k))
  {
    EmptyCurrRuleForeseesSnap(|ls|, ledger, j);
    assert ShapeAt(ls, ledger, j) && ShapeAt(ls, ledger, j - 1);
    if !ls[j].next.Clear? {
      assert PendingAt(ls, ledger, j) && PendingKey(ls, ledger, j, k);
      ComposeIsSequencing(t, PendingCurr(ls, ledger, j, k), At(ls[j - 1].snap, k));
    }
  }

  /** The state that reaches the curr of level i-1 after the batch, and where that state is reached before. */
  function Source(ls: Levels, ledger: nat, i: nat, t: Option<KeyState>, k: LedgerKey): (r: Option<KeyState>)
    requires 0 < i <= |ls|
  {
    if LevelShouldSpill(|ls|, ledger + 1, i - 1) then Tail(ls, i - 1, t, k) else TailFromCurr(ls, i, t, k)
  }

  lemma AfterLevels(ls: Levels, ledger: nat, b: Bucket, i: nat)
    requires i < |ls|
    ensures After(ls, ledger, b)[i].snap == SnapAfter(ls, ledger + 1, i)
    ensures i > 0 ==> After(ls, ledger, b)[i].curr == CurrAfter(POLICY, ls, ledger + 1, i)
    ensures i > 0 ==> After(ls, ledger, b)[i].next == NextAfter(POLICY, ls, ledger + 1, b.version, i)
  {
  }

  /** The youngest level. */
  lemma TailStepAtLevel0(ls: Levels, ledger: nat, b: Bucket, t: Option<KeyState>, k: LedgerKey)
    requires Accepts(ls, ledger, b)
    requires Step(Source(ls, ledger, 1, t, k), Get(b, k)).Some?
    ensures TailFromCurr(After(ls, ledger, b), 1, t, k) == Step(Source(ls, ledger, 1, t, k), Get(b, k))
  {
    Curr0After(ls, ledger, b);
    var c0 := CurrAfter(POLICY, ls, ledger + 1, 0);
    assert At(After(ls, ledger, b)[0].curr, k) == Compose(At(c0, k), Get(b, k));
    if !LevelShouldSpill(|ls|, ledger + 1, 0) {
      ComposeIsSequencing(t, At(ls[0].curr, k), Get(b, k));
    }
  }

  /** The state in which the curr of a level leaves a key, before and after the batch. */
  lemma {:induction false} PromotedState(ls: Levels, ledger: nat, b: Bucket, j: nat, t: Option<KeyState>, k: LedgerKey)
      returns (t1: Option<KeyState>)
    requires Accepts(ls, ledger, b) && 0 < j < |ls| - 1 && Commits(|ls|, ledger + 1, j)
    requires Step(Source(ls, ledger, j + 1, t, k), Get(b, k)).Some?
    ensures t1 == Step(t, At(CurrAfter(POLICY, ls, ledger + 1, j), k))
    ensures TailFromCurr(ls, j, t1, k) == Source(ls, ledger, j + 1, t, k)
  {
    var c := if LevelShouldSpill(|ls|, ledger + 1, j) then None else At(ls[j].curr, k);
    var t2 := Step(Step(t, c), At(ls[j - 1].snap, k));
    assert Source(ls, ledger, j + 1, t, k) == TailFromCurr(ls, j, t2, k);
    TailDefined(ls, j - 1, Step(t2, At(ls[j - 1].curr, k)), k);
    PromotedCurr(ls, ledger, j, t, k);
    t1 := Step(t, At(CurrAfter(POLICY, ls, ledger + 1, j), k));
    if t1 != t2 {
      assert t1 == Some(Present(t1.value.body)) && t2 == Some(Present(t2.value.body));
      assert TailFromCurr(ls, j, Some(Present(t1.value.body)), k) == State(ls, k);
      assert TailFromCurr(ls, j, Some(Present(t2.value.body)), k) == State(ls, k);
    }
  }

  lemma {:induction false} TailStep(ls: Levels, ledger: nat, b: Bucket, i: nat, t: Option<KeyState>, k: LedgerKey)
    requires Accepts(ls, ledger, b) && 0 < i < |ls|
    requires Step(Source(ls, ledger, i, t, k), Get(b, k)).Some?
    ensures TailFromCurr(After(ls, ledger, b), i, t, k) == Step(Source(ls, ledger, i, t, k), Get(b, k))
    decreases i
  {
    var j := i - 1;
    if j == 0 {
      TailStepAtLevel0(ls, ledger, b, t, k);
    } else {
      var t1;
      if Commits(|ls|, ledger + 1, j) {
        t1 := PromotedState(ls, ledger, b, j, t, k);
      } else {
        if LevelShouldSpill(|ls|, ledger + 1, j) {
          SpillsAreNested(|ls|, ledger + 1, j);
        }
        t1 := Step(t, At(ls[j].curr, k));
      }
      AfterLevels(ls, ledger, b, j);
      AfterLevels(ls, ledger, b, j - 1);
      TailStep(ls, ledger, b, j, Step(t1, At(SnapAfter(ls, ledger + 1, j - 1), k)), k);
    }
  }

  /** The last level takes in what is spilled to it, less the deletions. */
  lemma BottomKeyPromoted(ls: Levels, ledger: nat, k: LedgerKey)
    requires 2 <= |ls| && !ls[|ls| - 1].next.Clear?
    requires BottomKey(ls, k) && PendingKey(ls, ledger, |ls| - 1, k)
    requires Step(Bottom(ls, k), At(ls[|ls| - 2].snap, k)).Some?
    ensures var c, s, r := At(ls[|ls| - 1].curr, k), At(ls[|ls| - 2].snap, k), At(Future(ls, |ls| - 1), k);
            && Step(Bottom(ls, k), s) == Some(if r.None? then Absent else Reads(r.value))
            && (r.Some? ==> !r.value.Dead?)
            && (r.Some? && r.value.Live? ==> c.Some? && c.value.Live?)
  {
  }

  lemma BottomPromoted(ls: Levels, ledger: nat, k: LedgerKey)
    requires Lawful(ls, ledger) && !ls[|ls| - 1].next.Clear?
    ensures var n := |ls|;
            var c, s, r := At(ls[n - 1].curr, k), At(ls[n - 2].snap, k), At(Future(ls, n - 1), k);
            && Step(Bottom(ls, k), s) == Some(if r.None? then Absent else Reads(r.value))
            && (r.Some? ==> !r.value.Dead?)
            && (r.Some? && r.value.Live? ==> c.Some? && c.value.Live?)
  {
    assert BottomKey(ls, k) && State(ls, k).Some?;
    BeforeDefined(ls, |ls| - 2, k);
    assert PendingAt(ls, ledger, |ls| - 1);
    BottomKeyPromoted(ls, ledger, k);
  }

  /** The last level before its first promotion. */
  lemma BottomUnused(ls: Levels, ledger: nat, k: LedgerKey)
    requires Lawful(ls, ledger) && ls[|ls| - 1].next.Clear?
    ensures At(ls[|ls| - 2].snap, k) == None
  {
    assert ShapeAt(ls, ledger, |ls| - 1) && ShapeAt(ls, ledger, |ls| - 2);
  }

  lemma BottomStep(ls: Levels, ledger: nat, b: Bucket, k: LedgerKey)
    requires Lawful(ls, ledger)
    ensures var n := |ls|;
            Bottom(After(ls, ledger, b), k) ==
              if LevelShouldSpill(n, ledger + 1, n - 2) then Step(Bottom(ls, k), At(ls[n - 2].snap, k))
              else Bottom(ls, k)
  {
    AfterLevels(ls, ledger, b, |ls| - 1);
    if ls[|ls| - 1].next.Clear? {
      BottomUnused(ls, ledger, k);
    } else {
      BottomPromoted(ls, ledger, k);
    }
    BottomAfterSpill(ls, ledger, After(ls, ledger, b), k);
  }

  lemma BottomAfterSpill(ls: Levels, ledger: nat, ls': Levels, k: LedgerKey)
    requires 2 <= |ls| == |ls'| && ls'[|ls| - 1].curr == CurrAfter(POLICY, ls, ledger + 1, |ls| - 1)
    requires ls[|ls| - 1].next.Clear? ==> At(ls[|ls| - 2].snap, k) == None
    requires !ls[|ls| - 1].next.Clear? ==>
               var r := At(Future(ls, |ls| - 1), k);
               Step(Bottom(ls, k), At(ls[|ls| - 2].snap, k)) == Some(if r.None? then Absent else Reads(r.value))
    ensures Bottom(ls', k) ==
              if LevelShouldSpill(|ls|, ledger + 1, |ls| - 2) then Step(Bottom(ls, k), At(ls[|ls| - 2].snap, k))
              else Bottom(ls, k)
  {
  }

  lemma SourceOfState(ls: Levels, ledger: nat, bottom: Option<KeyState>, k: LedgerKey)
    requires 2 <= |ls|
    requires bottom == if LevelShouldSpill(|ls|, ledger + 1, |ls| - 2)
                       then Step(Bottom(ls, k), At(ls[|ls| - 2].snap, k))
                       else Bottom(ls, k)
    ensures Source(ls, ledger, |ls| - 1, Step(bottom, At(SnapAfter(ls, ledger + 1, |ls| - 2), k)), k) == State(ls, k)
  {
  }

  /** The batch is one lifecycle step on each key of the list. */
  lemma StateStep(ls: Levels, ledger: nat, b: Bucket, k: LedgerKey)
    requires Accepts(ls, ledger, b)
    ensures State(After(ls, ledger, b), k) == Step(State(ls, k), Get(b, k))
  {
    var n, ls' := |ls|, After(ls, ledger, b);
    BottomStep(ls, ledger, b, k);
    AfterLevels(ls, ledger, b, n - 2);
    SourceOfState(ls, ledger, Bottom(ls', k), k);
    TailStep(ls, ledger, b, n - 1, Step(Bottom(ls', k), At(ls'[n - 2].snap, k)), k);
  }
}
