/** Which ledgers each slot of the bucket list holds, and the calculation of that from the ledger number
    alone (src/bucket/BucketList.cpp). */
module Sizes {
  import opened Arithmetic
  import opened Schedule
  import opened SpillingList

  type LedgerLevels = seq<Level<seq<int>>>

  function Concat(keepDead: bool, inputs: Inputs<seq<int>>): (r: seq<int>) {
    inputs.curr + inputs.snap
  }

  /** Slots that hold ledger numbers: a merge holds the ledgers of both its inputs, oldest first. */
  const LEDGERS: Policy<seq<int>> := Policy([], Concat, _ => false)

  /** The list after closing ledgers 1 to `ledger`, each adding itself. */
  function Held(n: nat, ledger: nat): (r: LedgerLevels)
    ensures |r| == n
  {
    if ledger == 0 then Initial(LEDGERS, n) else Add(LEDGERS, Held(n, ledger - 1), ledger, 0, [ledger])
  }

  function Future(ls: LedgerLevels, i: nat): (r: seq<int>)
    requires i < |ls| && !ls[i].next.Clear?
  {
    Output(LEDGERS, |ls|, i, ls[i].next)
  }

  // ----- the slots of a run

  /** The number of ledgers by which level i grows. */
  function Unit(i: nat): (r: nat)
    ensures 0 < r && LevelHalf(i) == if i == 0 then 2 * r else 4 * r
  {
    if i == 0 then 1 else LevelHalf(i - 1)
  }

  /** Full levels hold multiples of the unit; levels not yet reached hold nothing; and the future of
      a level is what it will hold after the next spill. */
  predicate HeldAt(ls: LedgerLevels, ledger: nat, i: nat)
    requires i < |ls|
  {
    && (ledger < CurrSince(i) ==> ls[i].curr == [])
    && (ledger < LevelHalf(i) || i + 1 == |ls| ==> ls[i].snap == [])
    && (i + 1 < |ls| && LevelHalf(i) <= ledger ==>
          |ls[i].curr| == Unit(i) + Mask(ledger, Unit(i)) - Mask(ledger, LevelHalf(i)))
    && (i + 1 < |ls| && LevelSize(i) <= ledger ==> |ls[i].snap| == LevelHalf(i))
    && (i == 0 && ledger == 1 && 1 < |ls| ==> |ls[i].curr| == 1)
    && (i > 0 ==> (ls[i].next.Clear? <==> ledger < LevelHalf(i - 1)))
    && (i > 0 && !ls[i].next.Clear? ==>
          Future(ls, i) == (if ShouldMergeWithEmptyCurr(|ls|, ledger, i) then [] else ls[i].curr) + ls[i - 1].snap)
  }

  lemma MaskOfStep(n: nat, ledger: nat, i: nat)
    requires i + 1 < n
    ensures LevelShouldSpill(n, ledger + 1, i) ==>
              Mask(ledger + 1, LevelHalf(i)) == ledger + 1 == Mask(ledger, LevelHalf(i)) + LevelHalf(i)
    ensures !LevelShouldSpill(n, ledger + 1, i) ==> Mask(ledger + 1, LevelHalf(i)) == Mask(ledger, LevelHalf(i))
  {
    SpillsAtMultiplesOfHalf(n, ledger + 1, i);
    MaskStep(ledger, LevelHalf(i));
  }

  function Next(ls: LedgerLevels, ledger: nat): (r: LedgerLevels)
    ensures |r| == |ls|
  {
    Add(LEDGERS, ls, ledger + 1, 0, [ledger + 1])
  }

  lemma NextLevel(ls: LedgerLevels, ledger: nat, i: nat)
    requires i < |ls|
    ensures Next(ls, ledger)[i].snap == SnapAfter(ls, ledger + 1, i)
    ensures i > 0 ==> Next(ls, ledger)[i].curr == CurrAfter(LEDGERS, ls, ledger + 1, i)
    ensures i == 0 ==> Next(ls, ledger)[i].curr == CurrAfter(LEDGERS, ls, ledger + 1, i) + [ledger + 1]
    ensures i > 0 ==> Next(ls, ledger)[i].next == NextAfter(LEDGERS, ls, ledger + 1, 0, i)
  {
    assert LEDGERS.merge(KeepDeadEntries(|ls|, 0), Inputs(CurrAfter(LEDGERS, ls, ledger + 1, 0), [ledger + 1], [], 0))
        == CurrAfter(LEDGERS, ls, ledger + 1, 0) + [ledger + 1];
  }

  lemma SnapKept(ls: LedgerLevels, ledger: nat, i: nat)
    requires i < |ls| && HeldAt(ls, ledger, i)
    ensures var s := Next(ls, ledger)[i].snap;
            && (ledger + 1 < LevelHalf(i) || i + 1 == |ls| ==> s == [])
            && (i + 1 < |ls| && LevelSize(i) <= ledger + 1 ==> |s| == LevelHalf(i))
  {
    NextLevel(ls, ledger, i);
    if i + 1 < |ls| {
      var spills := LevelShouldSpill(|ls|, ledger + 1, i);
      SpillLedgers(|ls|, ledger + 1, i);
      if spills {
        SnapTaken(ls, ledger, i);
      }
      SnapSize(ls[i].curr, ls[i].snap, ledger, LevelHalf(i), spills);
    }
  }

  lemma SnapSize(curr: seq<int>, snap: seq<int>, ledger: nat, h: nat, spills: bool)
    requires 0 < h && (ledger < h ==> snap == []) && (2 * h <= ledger ==> |snap| == h)
    requires spills ==> ledger + 1 == h || 2 * h <= ledger + 1
    requires spills && h <= ledger ==> |curr| == h
    requires !spills ==> ledger + 1 != h && ledger + 1 != 2 * h
    ensures var s := if spills then curr else snap;
            (ledger + 1 < h ==> s == []) && (2 * h <= ledger + 1 ==> |s| == h)
  {
  }

  /** A level that spills hands over all it holds. */
  lemma SnapTaken(ls: LedgerLevels, ledger: nat, i: nat)
    requires i + 1 < |ls| && HeldAt(ls, ledger, i) && LevelShouldSpill(|ls|, ledger + 1, i)
    ensures LevelHalf(i) <= ledger ==> |ls[i].curr| == LevelHalf(i)
  {
    MaskOfStep(|ls|, ledger, i);
    if i > 0 {
      SpillsAreNested(|ls|, ledger + 1, i);
      MaskOfStep(|ls|, ledger, i - 1);
    } else {
      MaskByOne(ledger);
    }
  }

  lemma Curr0Kept(ls: LedgerLevels, ledger: nat)
    requires 1 < |ls| && HeldAt(ls, ledger, 0)
    ensures var c := Next(ls, ledger)[0].curr;
            && (LevelHalf(0) <= ledger + 1 ==>
                  |c| == Unit(0) + Mask(ledger + 1, Unit(0)) - Mask(ledger + 1, LevelHalf(0)))
            && (ledger + 1 == 1 ==> |c| == 1)
  {
    NextLevel(ls, ledger, 0);
    MaskOfStep(|ls|, ledger, 0);
    SpillLedgers(|ls|, ledger + 1, 0);
    assert Unit(0) == 1 && LevelHalf(0) == 2;
    Curr0Size(ls[0].curr, ledger, Next(ls, ledger)[0].curr, LevelShouldSpill(|ls|, ledger + 1, 0));
  }

  lemma Curr0Size(c: seq<int>, ledger: nat, c': seq<int>, spills: bool)
    requires c' == (if spills then [] else c) + [ledger + 1]
    requires ledger == 0 ==> c == []
    requires 2 <= ledger ==> |c| == 1 + Mask(ledger, 1) - Mask(ledger, 2)
    requires spills ==> Mask(ledger + 1, 2) == ledger + 1
    requires !spills ==> Mask(ledger + 1, 2) == Mask(ledger, 2) && ledger + 1 != 2
    ensures 2 <= ledger + 1 ==> |c'| == 1 + Mask(ledger + 1, 1) - Mask(ledger + 1, 2)
    ensures ledger == 0 ==> |c'| == 1
  {
    MaskByOne(ledger);
    MaskByOne(ledger + 1);
  }

  lemma MaskByOne(v: nat)
    ensures Mask(v, 1) == v
  {
  }

  lemma CurrKept(ls: LedgerLevels, ledger: nat, i: nat)
    requires 0 < i < |ls| && HeldAt(ls, ledger, i) && HeldAt(ls, ledger, i - 1)
    ensures var c := Next(ls, ledger)[i].curr;
            && (ledger + 1 < CurrSince(i) ==> c == [])
            && (i + 1 < |ls| && LevelHalf(i) <= ledger + 1 ==>
                  |c| == Unit(i) + Mask(ledger + 1, Unit(i)) - Mask(ledger + 1, LevelHalf(i)))
  {
    if Commits(|ls|, ledger + 1, i) {
      CurrTakesSnap(ls, ledger, i);
      SpillLedgers(|ls|, ledger + 1, i - 1);
      if i + 1 < |ls| {
        CurrPromoted(ls, ledger, i);
      }
    } else {
      CurrLeft(ls, ledger, i);
    }
  }

  lemma CurrPromoted(ls: LedgerLevels, ledger: nat, i: nat)
    requires 0 < i && i + 1 < |ls| && Commits(|ls|, ledger + 1, i) && TakesSnap(ls, ledger, i)
    requires LevelSize(i - 1) <= ledger ==> |ls[i - 1].snap| == LevelHalf(i - 1)
    requires LevelHalf(i) <= ledger ==> |ls[i].curr| == Unit(i) + Mask(ledger, Unit(i)) - Mask(ledger, LevelHalf(i))
    ensures LevelHalf(i) <= ledger + 1 ==>
              |Next(ls, ledger)[i].curr| == Unit(i) + Mask(ledger + 1, Unit(i)) - Mask(ledger + 1, LevelHalf(i))
  {
    var spills := LevelShouldSpill(|ls|, ledger + 1, i);
    MaskOfStep(|ls|, ledger, i - 1);
    SpillLedgers(|ls|, ledger + 1, i);
    MaskOfStep(|ls|, ledger, i);
    PromotedSize(ls[i].curr, ls[i - 1].snap, ledger, Unit(i), LevelHalf(i), spills);
  }

  lemma PromotedSize(curr: seq<int>, snap: seq<int>, ledger: nat, u: nat, h: nat, spills: bool)
    requires 0 < u && h == 4 * u && Mask(ledger + 1, u) == ledger + 1 == Mask(ledger, u) + u
    requires 2 * u <= ledger ==> |snap| == u
    requires h <= ledger ==> |curr| == u + Mask(ledger, u) - Mask(ledger, h)
    requires spills ==> Mask(ledger + 1, h) == ledger + 1
    requires !spills ==> Mask(ledger + 1, h) == Mask(ledger, h) && ledger + 1 != h
    ensures h <= ledger + 1 ==>
              |(if spills then [] else curr) + snap| == u + Mask(ledger + 1, u) - Mask(ledger + 1, h)
  {
  }

  lemma CurrLeft(ls: LedgerLevels, ledger: nat, i: nat)
    requires 0 < i < |ls| && HeldAt(ls, ledger, i) && !Commits(|ls|, ledger + 1, i)
    ensures var c := Next(ls, ledger)[i].curr;
            && (ledger + 1 < CurrSince(i) ==> c == [])
            && (i + 1 < |ls| && LevelHalf(i) <= ledger + 1 ==>
                  |c| == Unit(i) + Mask(ledger + 1, Unit(i)) - Mask(ledger + 1, LevelHalf(i)))
  {
    NextLevel(ls, ledger, i);
    MaskOfStep(|ls|, ledger, i - 1);
    if i + 1 < |ls| {
      SpillLedgers(|ls|, ledger + 1, i);
      MaskOfStep(|ls|, ledger, i);
      if LevelShouldSpill(|ls|, ledger + 1, i) {
        SpillsAreNested(|ls|, ledger + 1, i);
        assert false;
      }
    }
  }

  /** A merge that has just been started. */
  lemma FutureStarted(ls: LedgerLevels, ledger: nat, i: nat)
    requires 0 < i < |ls| && Commits(|ls|, ledger + 1, i)
    ensures var ls' := Next(ls, ledger);
            && !ls'[i].next.Clear?
            && Future(ls', i) == (if ShouldMergeWithEmptyCurr(|ls|, ledger + 1, i) then [] else ls'[i].curr) +
               ls'[i - 1].snap
  {
    var ls' := Next(ls, ledger);
    NextLevel(ls, ledger, i);
    NextLevel(ls, ledger, i - 1);
    var inputs := ls'[i].next.inputs;
    assert Future(ls', i) == LEDGERS.merge(KeepDeadEntries(|ls|, i), inputs) == inputs.curr + inputs.snap;
  }

  /** A merge that goes on has the same inputs in the list. */
  lemma FutureUnchanged(ls: LedgerLevels, ledger: nat, i: nat)
    requires 0 < i < |ls| && !Commits(|ls|, ledger + 1, i)
    ensures var ls' := Next(ls, ledger);
            ls'[i].next == ls[i].next && ls'[i].curr == ls[i].curr && ls'[i - 1].snap == ls[i - 1].snap
  {
    NextLevel(ls, ledger, i);
    NextLevel(ls, ledger, i - 1);
    if LevelShouldSpill(|ls|, ledger + 1, i) {
      SpillsAreNested(|ls|, ledger + 1, i);
    }
  }

  lemma FutureKept(ls: LedgerLevels, ledger: nat, i: nat)
    requires 0 < i < |ls| && HeldAt(ls, ledger, i)
    ensures var ls' := Next(ls, ledger);
            && (ls'[i].next.Clear? <==> ledger + 1 < LevelHalf(i - 1))
            && (!ls'[i].next.Clear? ==>
                  Future(ls', i) == (if ShouldMergeWithEmptyCurr(|ls|, ledger + 1, i) then [] else ls'[i].curr) +
                    ls'[i - 1].snap)
  {
    SpillLedgers(|ls|, ledger + 1, i - 1);
    EmptyCurrRuleForeseesSnap(|ls|, ledger, i);
    if Commits(|ls|, ledger + 1, i) {
      FutureStarted(ls, ledger, i);
    } else {
      FutureUnchanged(ls, ledger, i);
    }
  }

  lemma HeldAtNext(ls: LedgerLevels, ledger: nat, i: nat)
    requires i < |ls| && HeldAt(ls, ledger, i) && (i > 0 ==> HeldAt(ls, ledger, i - 1))
    ensures HeldAt(Next(ls, ledger), ledger + 1, i)
  {
    SnapKept(ls, ledger, i);
    if i > 0 {
      CurrKept(ls, ledger, i);
      FutureKept(ls, ledger, i);
    } else if |ls| > 1 {
      Curr0Kept(ls, ledger);
    }
  }

  // ----- the slots together

  /** Consecutive ledgers. */
  predicate Counts(s: seq<int>, from: int) {
    forall i :: 0 <= i < |s| ==> s[i] == from + i
  }

  /** The ledgers held by the levels younger than i, oldest first. */
  function Younger(ls: LedgerLevels, i: nat): (r: seq<int>)
    requires i <= |ls|
  {
    if i == 0 then [] else ls[i - 1].snap + ls[i - 1].curr + Younger(ls, i - 1)
  }

  /** The curr of a level after a spill into it. */
  predicate TakesSnap(ls: LedgerLevels, ledger: nat, j: nat)
    requires 0 < j < |ls|
  {
    Commits(|ls|, ledger + 1, j) ==>
      Next(ls, ledger)[j].curr == (if LevelShouldSpill(|ls|, ledger + 1, j) then [] else ls[j].curr) + ls[j - 1].snap
  }

  lemma CurrTakesSnap(ls: LedgerLevels, ledger: nat, j: nat)
    requires 0 < j < |ls| && HeldAt(ls, ledger, j) && HeldAt(ls, ledger, j - 1)
    ensures TakesSnap(ls, ledger, j)
  {
    NextLevel(ls, ledger, j);
    SpillLedgers(|ls|, ledger + 1, j - 1);
    EmptyCurrRuleForeseesSnap(|ls|, ledger, j);
  }

  lemma Regroup(a: seq<int>, b: seq<int>, s: seq<int>, y: seq<int>, y': seq<int>, l: seq<int>)
    requires s + y' == y + l
    ensures a + (b + s + y') == a + b + y + l
    ensures a + (b + s) + y' == a + b + y + l
  {
    assert a + (b + s + y') == (a + b) + (s + y');
    assert a + (b + s) + y' == (a + b) + (s + y');
  }

  lemma YoungerStepAbove(ls: LedgerLevels, ledger: nat, j: nat)
    requires 0 < j < |ls| && TakesSnap(ls, ledger, j)
    requires Spilled(ls, ledger, j) + Younger(Next(ls, ledger), j) == Younger(ls, j) + [ledger + 1]
    ensures Spilled(ls, ledger, j + 1) + Younger(Next(ls, ledger), j + 1) == Younger(ls, j + 1) + [ledger + 1]
  {
    if Commits(|ls|, ledger + 1, j) {
      YoungerStepCommitted(ls, ledger, j);
    } else {
      YoungerStepKept(ls, ledger, j);
    }
  }

  lemma YoungerStepKept(ls: LedgerLevels, ledger: nat, j: nat)
    requires 0 < j < |ls| && !Commits(|ls|, ledger + 1, j)
    requires Spilled(ls, ledger, j) + Younger(Next(ls, ledger), j) == Younger(ls, j) + [ledger + 1]
    ensures Spilled(ls, ledger, j + 1) + Younger(Next(ls, ledger), j + 1) == Younger(ls, j + 1) + [ledger + 1]
  {
    if LevelShouldSpill(|ls|, ledger + 1, j) {
      SpillsAreNested(|ls|, ledger + 1, j);
    }
    NextLevel(ls, ledger, j);
    KeepGroups(ls[j].snap, ls[j].curr, Younger(ls, j), Younger(Next(ls, ledger), j), [ledger + 1]);
  }

  lemma YoungerStepCommitted(ls: LedgerLevels, ledger: nat, j: nat)
    requires 0 < j < |ls| && TakesSnap(ls, ledger, j) && Commits(|ls|, ledger + 1, j)
    requires Spilled(ls, ledger, j) + Younger(Next(ls, ledger), j) == Younger(ls, j) + [ledger + 1]
    ensures Spilled(ls, ledger, j + 1) + Younger(Next(ls, ledger), j + 1) == Younger(ls, j + 1) + [ledger + 1]
  {
    NextLevel(ls, ledger, j);
    Regroup(ls[j].snap, ls[j].curr, ls[j - 1].snap, Younger(ls, j), Younger(Next(ls, ledger), j), [ledger + 1]);
    assert [] + ls[j - 1].snap == ls[j - 1].snap;
  }

  lemma KeepGroups(a: seq<int>, b: seq<int>, y: seq<int>, y': seq<int>, l: seq<int>)
    requires [] + y' == y + l
    ensures [] + (a + b + y') == a + b + y + l
  {
    assert a + b + (y + l) == a + b + y + l;
  }

  /** What level i-1 hands on at the next ledger. */
  function Spilled(ls: LedgerLevels, ledger: nat, i: nat): (r: seq<int>)
    requires 0 < i <= |ls|
  {
    if LevelShouldSpill(|ls|, ledger + 1, i - 1) then ls[i - 1].snap else []
  }

  lemma YoungerStep0(ls: LedgerLevels, ledger: nat)
    requires 0 < |ls|
    ensures Spilled(ls, ledger, 1) + Younger(Next(ls, ledger), 1) == Younger(ls, 1) + [ledger + 1]
  {
    NextLevel(ls, ledger, 0);
    AppendLast(ls[0].snap, ls[0].curr, [ledger + 1]);
  }

  lemma AppendLast(a: seq<int>, b: seq<int>, l: seq<int>)
    ensures a + (b + ([] + l) + []) == a + b + [] + l
    ensures [] + (a + (b + l) + []) == a + b + [] + l
  {
    assert a + (b + l) == a + b + l;
  }

  /** A batch is appended; what a level spills is what its levels hold no more. */
  lemma {:induction false} YoungerStep(ls: LedgerLevels, ledger: nat, i: nat)
    requires 0 < i <= |ls| && forall j :: 0 < j < |ls| ==> TakesSnap(ls, ledger, j)
    ensures Spilled(ls, ledger, i) + Younger(Next(ls, ledger), i) == Younger(ls, i) + [ledger + 1]
  {
    if i == 1 {
      YoungerStep0(ls, ledger);
    } else {
      YoungerStep(ls, ledger, i - 1);
      assert TakesSnap(ls, ledger, i - 1);
      YoungerStepAbove(ls, ledger, i - 1);
    }
  }

  /** A list that holds the ledgers of a run. */
  ghost predicate Holds(ls: LedgerLevels, ledger: nat) {
    && 0 < |ls|
    && (forall i :: 0 <= i < |ls| ==> HeldAt(ls, ledger, i))
    && |Younger(ls, |ls|)| == ledger && Counts(Younger(ls, |ls|), 1)
  }

  lemma HoldsNext(ls: LedgerLevels, ledger: nat)
    requires Holds(ls, ledger)
    ensures Holds(Next(ls, ledger), ledger + 1)
  {
    var ls', next := Next(ls, ledger), ledger + 1;
    forall i | 0 <= i < |ls'| ensures HeldAt(ls', next, i) {
      assert HeldAt(ls, ledger, i) && (i > 0 ==> HeldAt(ls, ledger, i - 1));
      HeldAtNext(ls, ledger, i);
    }
    forall j | 0 < j < |ls| ensures TakesSnap(ls, ledger, j) {
      assert HeldAt(ls, ledger, j) && HeldAt(ls, ledger, j - 1);
      CurrTakesSnap(ls, ledger, j);
    }
    YoungerStep(ls, ledger, |ls|);
    assert [] + Younger(ls', |ls|) == Younger(ls', |ls|);
    assert Younger(ls', |ls|) == Younger(ls, |ls|) + [next];
  }

  lemma {:induction false} YoungerOfInitial(n: nat, i: nat)
    requires i <= n
    ensures Younger(Initial(LEDGERS, n), i) == []
  {
    if i > 0 {
      YoungerOfInitial(n, i - 1);
    }
  }

  lemma InitialHolds(n: nat)
    requires 0 < n
    ensures Holds(Initial(LEDGERS, n), 0)
  {
    YoungerOfInitial(n, n);
    var ls := Initial(LEDGERS, n);
    forall i | 0 <= i < n ensures HeldAt(ls, 0, i) {
    }
  }

  /** In every run the levels hold each ledger from 1 on exactly once, the older the deeper. */
  lemma {:induction false} RunHolds(n: nat, ledger: nat)
    requires 0 < n
    ensures Holds(Held(n, ledger), ledger)
  {
    if ledger == 0 {
      InitialHolds(n);
    } else {
      RunHolds(n, ledger - 1);
      HoldsNext(Held(n, ledger - 1), ledger - 1);
    }
  }

  lemma {:induction false} YoungerIsRange(ls: LedgerLevels, ledger: nat, i: nat)
    requires Holds(ls, ledger) && i <= |ls|
    ensures |Younger(ls, i)| <= ledger
    ensures Counts(Younger(ls, i), ledger + 1 - |Younger(ls, i)|)
    decreases |ls| - i
  {
    if i < |ls| {
      YoungerIsRange(ls, ledger, i + 1);
      PartsOfRange(ls[i].snap, ls[i].curr, Younger(ls, i), ledger + 1);
    }
  }

  /** Every slot holds consecutive ledgers, which end where those of the younger slots begin. */
  lemma SlotsAreRanges(ls: LedgerLevels, ledger: nat, i: nat, below: nat, curr: seq<int>, snap: seq<int>)
    requires Holds(ls, ledger) && i < |ls| && below == |Younger(ls, i)| && curr == ls[i].curr && snap == ls[i].snap
    ensures below + |curr| + |snap| <= ledger
    ensures Counts(curr, ledger + 1 - below - |curr|) && Counts(snap, ledger + 1 - below - |curr| - |snap|)
  {
    YoungerIsRange(ls, ledger, i + 1);
    PartsOfRange(snap, curr, Younger(ls, i), ledger + 1);
  }

  lemma PartsOfRange(a: seq<int>, b: seq<int>, c: seq<int>, hi: int)
    requires Counts(a + b + c, hi - |a + b + c|)
    ensures Counts(a, hi - |c| - |b| - |a|) && Counts(b, hi - |c| - |b|) && Counts(c, hi - |c|)
  {
    var whole := a + b + c;
    assert forall k :: 0 <= k < |a| ==> a[k] == whole[k];
    assert forall k :: 0 <= k < |b| ==> b[k] == whole[|a| + k];
    assert forall k :: 0 <= k < |c| ==> c[k] == whole[|a| + |b| + k];
  }

  predicate EmptyLevel(ls: LedgerLevels, j: nat)
    requires j < |ls|
  {
    ls[j].curr == [] && ls[j].snap == []
  }

  lemma OlderLevelEmpty(ls: LedgerLevels, ledger: nat, i: nat, j: nat)
    requires i < j < |ls| && HeldAt(ls, ledger, j) && ledger < LevelSize(i)
    ensures EmptyLevel(ls, j)
  {
    HalvesGrow(i, j - 1);
  }

  lemma {:induction false} EmptyLevelsHoldNothing(ls: LedgerLevels, i: nat, j: nat)
    requires i <= j <= |ls| && forall l :: i <= l < |ls| ==> EmptyLevel(ls, l)
    ensures |Younger(ls, j)| == |Younger(ls, i)|
    decreases j
  {
    if i < j {
      EmptyLevelsHoldNothing(ls, i, j - 1);
      assert EmptyLevel(ls, j - 1);
      YoungerGrows(ls, j - 1);
    }
  }

  /** On the level that holds the oldest ledgers. */
  lemma {:induction false} OldestLevelHoldsTheRest(ls: LedgerLevels, ledger: nat, i: nat)
    requires Holds(ls, ledger) && i < |ls| && (i + 1 == |ls| || ledger < LevelSize(i))
    ensures |ls[i].snap| + |ls[i].curr| + |Younger(ls, i)| == ledger
  {
    NothingOlder(ls, ledger, i);
    YoungerGrows(ls, i);
  }

  lemma NothingOlder(ls: LedgerLevels, ledger: nat, i: nat)
    requires Holds(ls, ledger) && i < |ls| && (i + 1 == |ls| || ledger < LevelSize(i))
    ensures |Younger(ls, i + 1)| == |Younger(ls, |ls|)| == ledger
  {
    forall j | i + 1 <= j < |ls| ensures EmptyLevel(ls, j) {
      assert HeldAt(ls, ledger, j);
      OlderLevelEmpty(ls, ledger, i, j);
    }
    EmptyLevelsHoldNothing(ls, i + 1, |ls|);
  }

  lemma MaskFacts(v: nat, m: nat)
    requires 0 < m
    ensures Mask(v, m) != 0 <==> m <= v
    ensures Mask(v, m) == v <==> v % m == 0
  {
    if v < m {
      ModUnique(v, m, 0, v);
    }
  }

  /** Rounding down to multiples of 2h, 4h or 8h: never above rounding down to multiples of h. */
  lemma MaskCoarser(v: nat, h: nat, k: nat)
    requires 0 < h && 0 < k
    ensures 0 < k * h && Mask(v, k * h) <= Mask(v, h)
  {
    MulAtLeast(k, h);
    var w := Mask(v, k * h);
    assert w % h == 0 by {
      var q := v / (k * h);
      assert w == (k * h) * q == (q * k) * h;
      ModOfProduct(q * k, h);
    }
    MultipleBelow(v, w, h);
  }

  lemma MultipleBelow(v: nat, w: nat, h: nat)
    requires 0 < h && w <= v && w % h == 0
    ensures w <= Mask(v, h)
  {
    var a, b := v / h, w / h;
    assert Mask(v, h) == a * h && w == b * h;
    assert (b - a) * h == b * h - a * h;
    MulAtLeast(b - a, h);
  }

  /** The ledger at which the curr of a level with unit h last changed before `ledger`. */
  lemma PreviousRelevantLedger(ledger: nat, h: nat)
    requires 0 < h && 4 * h < ledger
    ensures var prev := Mask(ledger - 1, h);
            && Mask(ledger - 1, 2 * h) <= prev
            && Mask(ledger - 1, 4 * h) <= prev
            && Mask(ledger - 1, 8 * h) <= prev
            && 4 * h <= prev < ledger
            && Mask(prev, h) == prev
  {
    MaskCoarser(ledger - 1, h, 2);
    MaskCoarser(ledger - 1, h, 4);
    MaskCoarser(ledger - 1, h, 8);
    ModOfProduct((ledger - 1) / h, h);
    assert Mask(ledger - 1, h) == ((ledger - 1) / h) * h;
    ModOfProduct(1, 4 * h);
    MultipleBelow(ledger - 1, 4 * h, 4 * h);
  }

  /** A ledger and the previous relevant one round down alike to multiples of 4h. */
  lemma PreviousMask(ledger: nat, h: nat)
    requires 0 < h && 4 * h < ledger && ledger % (4 * h) != 0
    ensures Mask(Mask(ledger - 1, h), 4 * h) == Mask(ledger, 4 * h)
  {
    MaskStep(ledger - 1, 4 * h);
    MaskCoarser(ledger - 1, h, 4);
    var w, prev, q := Mask(ledger - 1, 4 * h), Mask(ledger - 1, h), (ledger - 1) / (4 * h);
    assert w == q * (4 * h);
    assert w <= prev < w + 4 * h;
    ModUnique(prev, 4 * h, q, prev - w);
  }

  // ----- the calculation

  /** BucketList::sizeOfCurr: the number of ledgers in the curr of a level. */
  method SizeOfCurr(n: nat, ledger: nat, level: nat) returns (r: nat)
    requires 2 <= n && ledger != 0 && level < n
    ensures r == |Held(n, ledger)[level].curr|
    decreases ledger, level, 1
  {
    RunHolds(n, ledger);
    if level == 0 {
      SmallestCurr(Held(n, ledger), ledger);
      return if ledger == 1 then 1 else 1 + ledger % 2;
    }
    var size, half := LevelSize(level), LevelHalf(level);
    MaskFacts(ledger, half);
    if level != n - 1 && Mask(ledger, half) != 0 {
      var sizeDelta := 2 * Pow4(level - 1);
      if Mask(ledger, half) == ledger || Mask(ledger, size) == ledger {
        CurrStartsOver(Held(n, ledger), ledger, level);
        return sizeDelta;
      }
      var prevSize, prevHalf := LevelSize(level - 1), LevelHalf(level - 1);
      var previousRelevantLedger := Max(Max(Mask(ledger - 1, prevHalf), Mask(ledger - 1, prevSize)),
                                        Max(Mask(ledger - 1, half), Mask(ledger - 1, size)));
      CurrGrowsFrom(n, ledger, level);
      var previous := SizeOfCurr(n, previousRelevantLedger, level);
      if Mask(ledger, prevHalf) == ledger || Mask(ledger, prevSize) == ledger {
        return previous + sizeDelta;
      } else {
        return previous;
      }
    } else {
      var blsize := SizeOfLevelsBelow(n, ledger, level);
      assert HeldAt(Held(n, ledger), ledger, level);
      OldestLevelHoldsTheRest(Held(n, ledger), ledger, level);
      return ledger - blsize;
    }
  }

  lemma SmallestCurr(ls: LedgerLevels, ledger: nat)
    requires Holds(ls, ledger) && 0 < ledger && 1 < |ls|
    ensures |ls[0].curr| == if ledger == 1 then 1 else 1 + ledger % 2
  {
    assert HeldAt(ls, ledger, 0);
  }

  lemma CurrStartsOver(ls: LedgerLevels, ledger: nat, i: nat)
    requires Holds(ls, ledger) && 0 < i < |ls| - 1 && LevelHalf(i) <= ledger
    requires Mask(ledger, LevelHalf(i)) == ledger || Mask(ledger, LevelSize(i)) == ledger
    ensures |ls[i].curr| == LevelHalf(i - 1)
  {
    assert HeldAt(ls, ledger, i);
    assert LevelShouldSpill(|ls|, ledger, i);
    SpillsAreNested(|ls|, ledger, i);
    SpillsAtMultiplesOfHalf(|ls|, ledger, i);
    SpillsAtMultiplesOfHalf(|ls|, ledger, i - 1);
  }

  lemma NotAtHalf(n: nat, ledger: nat, i: nat)
    requires i + 1 < n && LevelHalf(i) <= ledger
    requires Mask(ledger, LevelHalf(i)) != ledger
    ensures ledger % LevelHalf(i) != 0 && LevelHalf(i) < ledger
  {
    ModOfProduct(1, LevelHalf(i));
  }

  lemma CurrGrows(ls: LedgerLevels, ledger: nat, older: LedgerLevels, i: nat)
    requires 0 < i < |ls| - 1 && |older| == |ls| && LevelHalf(i) < ledger && ledger % LevelHalf(i) != 0
    requires Holds(ls, ledger) && Holds(older, Mask(ledger - 1, LevelHalf(i - 1)))
    requires LevelHalf(i) <= Mask(ledger - 1, LevelHalf(i - 1))
    ensures |ls[i].curr| == |older[i].curr| + if ledger % LevelHalf(i - 1) == 0 then LevelHalf(i - 1) else 0
  {
    var h := LevelHalf(i - 1);
    assert HeldAt(ls, ledger, i) && HeldAt(older, Mask(ledger - 1, h), i);
    PreviousMask(ledger, h);
    PreviousRelevantLedger(ledger, h);
    MaskStep(ledger - 1, h);
  }

  /** The latest of the four ledgers is when the level below last spilled; the curr has grown since only if it
      spills now. */
  lemma {:induction false} CurrGrowsFrom(n: nat, ledger: nat, i: nat)
    requires 0 < i < n - 1 && LevelHalf(i) <= ledger && Mask(ledger, LevelHalf(i)) != ledger
    ensures var prev := Mask(ledger - 1, LevelHalf(i - 1));
            && 0 < prev < ledger
            && Max(Max(prev, Mask(ledger - 1, LevelSize(i - 1))),
                   Max(Mask(ledger - 1, LevelHalf(i)), Mask(ledger - 1, LevelSize(i)))) == prev
            && |Held(n, ledger)[i].curr| == |Held(n, prev)[i].curr| +
                 if Mask(ledger, LevelHalf(i - 1)) == ledger || Mask(ledger, LevelSize(i - 1)) == ledger
                 then 2 * Pow4(i - 1) else 0
  {
    NotAtHalf(n, ledger, i);
    LatestOfFour(ledger, i);
    GrowthSince(n, ledger, i, Mask(ledger - 1, LevelHalf(i - 1)));
    SpillsAtMultiplesOfHalf(n, ledger, i - 1);
  }

  lemma LatestOfFour(ledger: nat, i: nat)
    requires 0 < i && LevelHalf(i) < ledger
    ensures var prev := Mask(ledger - 1, LevelHalf(i - 1));
            && LevelHalf(i) <= prev < ledger
            && Max(Max(prev, Mask(ledger - 1, LevelSize(i - 1))),
                   Max(Mask(ledger - 1, LevelHalf(i)), Mask(ledger - 1, LevelSize(i)))) == prev
  {
    PreviousRelevantLedger(ledger, LevelHalf(i - 1));
  }

  lemma GrowthSince(n: nat, ledger: nat, i: nat, prev: nat)
    requires 0 < i < n - 1 && LevelHalf(i) < ledger && ledger % LevelHalf(i) != 0
    requires prev == Mask(ledger - 1, LevelHalf(i - 1)) && LevelHalf(i) <= prev
    ensures |Held(n, ledger)[i].curr| ==
              |Held(n, prev)[i].curr| + if ledger % LevelHalf(i - 1) == 0 then LevelHalf(i - 1) else 0
  {
    RunHolds(n, ledger);
    RunHolds(n, prev);
    CurrGrows(Held(n, ledger), ledger, Held(n, prev), i);
  }

  /** The ledgers in the levels younger than `level`. */
  method SizeOfLevelsBelow(n: nat, ledger: nat, level: nat) returns (size: nat)
    requires 2 <= n && ledger != 0 && level < n
    ensures size == |Younger(Held(n, ledger), level)|
    decreases ledger, level, 0
  {
    size := 0;
    BelowCounts(n, ledger, 0);
    for l := 0 to level
      invariant size == BELOW(n, ledger, l)
    {
      size := AddLevel(n, ledger, l, size);
    }
    BelowCounts(n, ledger, level);
  }

  function Below(n: nat, ledger: nat, i: nat): (r: nat) {
    if i <= n then |Younger(Held(n, ledger), i)| else 0
  }

  /** As a value, which the proof of the loop does not look into. */
  const BELOW: (nat, nat, nat) -> nat := Below

  lemma BelowCounts(n: nat, ledger: nat, i: nat)
    requires i <= n
    ensures BELOW(n, ledger, i) == |Younger(Held(n, ledger), i)|
    ensures i == 0 ==> BELOW(n, ledger, i) == 0
  {
    assert BELOW(n, ledger, i) == Below(n, ledger, i);
  }

  /** One level more. */
  method AddLevel(n: nat, ledger: nat, level: nat, below: nat) returns (size: nat)
    requires 2 <= n && ledger != 0 && level < n && below == BELOW(n, ledger, level)
    ensures size == BELOW(n, ledger, level + 1)
    decreases ledger, level, 3
  {
    var curr := SizeOfCurr(n, ledger, level);
    var snap := SizeOfSnap(n, ledger, level);
    BelowCounts(n, ledger, level);
    BelowCounts(n, ledger, level + 1);
    YoungerGrows(Held(n, ledger), level);
    return below + curr + snap;
  }

  lemma YoungerGrows(ls: LedgerLevels, i: nat)
    requires i < |ls|
    ensures |Younger(ls, i + 1)| == |ls[i].snap| + |ls[i].curr| + |Younger(ls, i)|
  {
  }

  /** BucketList::sizeOfSnap: the number of ledgers in the snap of a level. */
  method SizeOfSnap(n: nat, ledger: nat, level: nat) returns (r: nat)
    requires 2 <= n && ledger != 0 && level < n
    ensures r == |Held(n, ledger)[level].snap|
    decreases ledger, level, 2
  {
    RunHolds(n, ledger);
    assert HeldAt(Held(n, ledger), ledger, level);
    MaskFacts(ledger, LevelSize(level));
    if level == n - 1 {
      return 0;
    } else if Mask(ledger, LevelSize(level)) != 0 {
      return LevelHalf(level);
    } else {
      var size := SizeOfLevelsBelow(n, ledger, level);
      var curr := SizeOfCurr(n, ledger, level);
      size := size + curr;
      OldestLevelHoldsTheRest(Held(n, ledger), ledger, level);
      return ledger - size;
    }
  }

  /** BucketList::oldestLedgerInCurr: where the range of ledgers in curr begins. */
  method OldestLedgerInCurr(n: nat, ledger: nat, level: nat) returns (r: nat)
    requires 2 <= n && ledger != 0 && level < n
    ensures var curr := Held(n, ledger)[level].curr;
            if curr == [] then r == UINT32_MAX else 1 <= r <= ledger && Counts(curr, r)
  {
    var ofCurr := SizeOfCurr(n, ledger, level);
    if ofCurr == 0 {
      return UINT32_MAX;
    }
    var below := SizeOfLevelsBelow(n, ledger, level);
    SlotsOfRunCount(n, ledger, level);
    return ledger - below - ofCurr + 1;
  }

  lemma SlotsOfRunCount(n: nat, ledger: nat, i: nat)
    requires 2 <= n && i < n
    ensures var below, curr, snap := |Younger(Held(n, ledger), i)|, Held(n, ledger)[i].curr, Held(n, ledger)[i].snap;
            && below + |curr| + |snap| <= ledger
            && Counts(curr, ledger + 1 - below - |curr|) && Counts(snap, ledger + 1 - below - |curr| - |snap|)
  {
    RunHolds(n, ledger);
    var ls := Held(n, ledger);
    SlotsAreRanges(ls, ledger, i, |Younger(ls, i)|, ls[i].curr, ls[i].snap);
  }

  /** BucketList::oldestLedgerInSnap: where the range of ledgers in snap begins. */
  method OldestLedgerInSnap(n: nat, ledger: nat, level: nat) returns (r: nat)
    requires 2 <= n && ledger != 0 && level < n
    ensures var snap := Held(n, ledger)[level].snap;
            if snap == [] then r == UINT32_MAX else 1 <= r <= ledger && Counts(snap, r)
  {
    var ofSnap := SizeOfSnap(n, ledger, level);
    if ofSnap == 0 {
      return UINT32_MAX;
    }
    var below := SizeOfLevelsBelow(n, ledger, level);
    var ofCurr := SizeOfCurr(n, ledger, level);
    SlotsOfRunCount(n, ledger, level);
    return ledger - below - ofCurr - ofSnap + 1;
  }
}
