/** Runs from the empty list (src/bucket/BucketList.cpp, src/bucket/Bucket.cpp): the oldest entry of every key is its
    creation, so merging all slots into one bucket gives the creation of each entry of the ledger, and nothing else. */
module Genesis {
  import opened LedgerCmp
  import opened Lifecycle
  import opened Wrappers
  import opened Buckets
  import opened Batches
  import opened MergeLaws
  import opened SpillingList
  import opened BucketListState
  import opened BucketListRefinement
  import opened BucketListLawful
  import opened BucketListRun

  /** A slot that says of a key that it is created, or nothing. */
  predicate CreatesAt(s: Slot, k: LedgerKey) {
    At(s, k).Some? ==> At(s, k).value.Init?
  }

  ghost predicate Creates(s: Slot) {
    forall k :: CreatesAt(s, k)
  }

  // ----- the last level

  /** The last level holds only creations. */
  ghost predicate Founded(ls: Levels) {
    0 < |ls| && Creates(ls[|ls| - 1].curr)
  }

  lemma FoundedAfterAt(ls: Levels, ledger: nat, b: Bucket, k: LedgerKey)
    requires Lawful(ls, ledger) && CreatesAt(ls[|ls| - 1].curr, k)
    ensures CreatesAt(After(ls, ledger, b)[|ls| - 1].curr, k)
  {
    var n := |ls|;
    AfterLevels(ls, ledger, b, n - 1);
    if Commits(n, ledger + 1, n - 1) && !ls[n - 1].next.Clear? {
      BottomPromoted(ls, ledger, k);
    }
  }

  lemma AfterFounded(ls: Levels, ledger: nat, b: Bucket)
    requires Lawful(ls, ledger) && Founded(ls)
    ensures Founded(After(ls, ledger, b))
  {
    var bottom := After(ls, ledger, b)[|ls| - 1].curr;
    forall k ensures CreatesAt(bottom, k) {
      assert CreatesAt(ls[|ls| - 1].curr, k);
      FoundedAfterAt(ls, ledger, b, k);
    }
  }

  lemma AlikeFounded(a: Levels, b: Levels)
    requires Alike(POLICY, a, b) && Founded(a)
    ensures Founded(b)
  {
    assert AlikeLevel(POLICY, |a|, |a| - 1, a[|a| - 1], b[|a| - 1]);
  }

  lemma AddBatchFounded(ls: Levels, ledger: nat, m: Ledger, protocol: nat, c: Close)
    requires Represents(ls, ledger, m, protocol) && Founded(ls)
    requires Closes(m, c.batch) && protocol <= c.batch.protocol
    ensures Founded(AddBatch(ls, ledger + 1, c))
  {
    FreshIsTheBatch(c.batch);
    var b := Fresh(c.batch).bucket;
    AfterFounded(ls, ledger, b);
    ResolveIsAlike(POLICY, After(ls, ledger, b), c.done);
    AlikeFounded(After(ls, ledger, b), AddBatch(ls, ledger + 1, c));
  }

  /** The last level only ever holds creations. */
  lemma {:induction false} RunFounded(ls: Levels, ledger: nat, m: Ledger, protocol: nat, closes: seq<Close>)
    requires Represents(ls, ledger, m, protocol) && Legal(m, protocol, closes) && Founded(ls)
    ensures Founded(Run(ls, ledger, closes))
    decreases |closes|
  {
    if closes != [] {
      AddBatchRepresents(ls, ledger, m, protocol, closes[0]);
      AddBatchFounded(ls, ledger, m, protocol, closes[0]);
      RunFounded(AddBatch(ls, ledger + 1, closes[0]), ledger + 1,
                 ApplyChanges(m, Changes(closes[0].batch)), closes[0].batch.protocol, closes[1..]);
    }
  }

  lemma {:induction false} InitialFounded(n: nat)
    requires 2 <= n
    ensures Represents(Initial(POLICY, n), 0, map[], 0) && Founded(Initial(POLICY, n))
  {
    InitialRepresents(n);
  }

  // ----- merging the whole list

  /** All slots of the levels younger than i merged, oldest first, onto what is merged already. */
  function MergeDown(ls: Levels, i: nat, merged: Slot, limit: nat): (r: Slot)
    requires i <= |ls|
  {
    if i == 0 then merged
    else MergeDown(ls, i - 1, MergeOnto(MergeOnto(merged, ls[i - 1].snap, limit), ls[i - 1].curr, limit), limit)
  }

  function MergeOnto(older: Slot, newer: Slot, limit: nat): (r: Slot) {
    MergeSlots(true, Inputs(older, newer, [], limit))
  }

  /** The whole list as one bucket. */
  function MergeAll(ls: Levels, limit: nat): (r: Slot)
    requires 0 < |ls|
  {
    MergeDown(ls, |ls|, Merged(EMPTY), limit)
  }

  predicate Within(s: Slot, limit: nat) {
    SlotOk(s) && s.bucket.version <= limit
  }

  /** The state a key is in after its creation, or before it. */
  function Entered(s: Slot, k: LedgerKey): (r: Option<KeyState>) {
    Some(if At(s, k).None? then Absent else Reads(At(s, k).value))
  }

  /** Merging a slot onto creations takes its step on every key, and gives creations. */
  lemma MergeOntoCreations(older: Slot, newer: Slot, limit: nat)
    requires Within(older, limit) && Within(newer, limit) && Creates(older)
    requires forall k :: Step(Entered(older, k), At(newer, k)).Some?
    ensures var r := MergeOnto(older, newer, limit);
            Within(r, limit) && Creates(r) && forall k :: Entered(r, k) == Step(Entered(older, k), At(newer, k))
  {
    var o, n := older.bucket, newer.bucket;
    forall k ensures !Clash(Get(o, k), Get(n, k)) {
      assert CreatesAt(older, k) && Step(Entered(older, k), At(newer, k)).Some?;
    }
    MergeOutcome(limit, o, n, [], true);
    assert Contents([]) == [];
    var r := MergeOnto(older, newer, limit);
    forall k ensures CreatesAt(r, k) && Entered(r, k) == Step(Entered(older, k), At(newer, k)) {
      assert CreatesAt(older, k) && Step(Entered(older, k), At(newer, k)).Some?;
      assert Get(r.bucket, k) == Setting(MergeVersion(o, n, []), [], true).Emit(Compose(Get(o, k), Get(n, k)));
    }
  }

  ghost predicate StandsFor(s: Slot, ls: Levels, i: nat)
    requires i < |ls|
  {
    Creates(s) && forall k :: Entered(s, k) == Before(ls, i, k)
  }

  lemma MergeLevelDown(ls: Levels, ledger: nat, i: nat, merged: Slot, limit: nat)
    requires Lawful(ls, ledger) && 0 < i < |ls| && Within(merged, limit) && StandsFor(merged, ls, i)
    requires Within(ls[i - 1].snap, limit) && Within(ls[i - 1].curr, limit)
    ensures var r := MergeOnto(MergeOnto(merged, ls[i - 1].snap, limit), ls[i - 1].curr, limit);
            Within(r, limit) && StandsFor(r, ls, i - 1)
  {
    forall k
      ensures Step(Entered(merged, k), At(ls[i - 1].snap, k)).Some?
      ensures Step(Step(Entered(merged, k), At(ls[i - 1].snap, k)), At(ls[i - 1].curr, k)) == Before(ls, i - 1, k)
      ensures Before(ls, i - 1, k).Some?
    {
      assert State(ls, k).Some? && Entered(merged, k) == Before(ls, i, k);
      BeforeDefined(ls, i - 1, k);
    }
    MergeOntoCreations(merged, ls[i - 1].snap, limit);
    MergeOntoCreations(MergeOnto(merged, ls[i - 1].snap, limit), ls[i - 1].curr, limit);
  }

  lemma {:induction false} MergeDownStands(ls: Levels, ledger: nat, i: nat, merged: Slot, limit: nat)
    requires Lawful(ls, ledger) && i < |ls| && Within(merged, limit) && StandsFor(merged, ls, i)
    requires ls[0].curr.bucket.version <= limit
    ensures Within(MergeDown(ls, i, merged, limit), limit) && StandsFor(MergeDown(ls, i, merged, limit), ls, 0)
    decreases i
  {
    if i > 0 {
      SlotsWithin(ls, ledger, i - 1, limit);
      MergeLevelDown(ls, ledger, i, merged, limit);
      MergeDownStands(ls, ledger, i - 1,
                      MergeOnto(MergeOnto(merged, ls[i - 1].snap, limit), ls[i - 1].curr, limit), limit);
    }
  }

  lemma SlotsWithin(ls: Levels, ledger: nat, i: nat, limit: nat)
    requires Lawful(ls, ledger) && i < |ls| && ls[0].curr.bucket.version <= limit
    ensures Within(ls[i].snap, limit) && Within(ls[i].curr, limit)
  {
    YoungerIsNewer(ls, ledger, i);
    assert VersionsAt(ls, i);
  }

  /** The last level alone: its snap is empty, and its curr is merged onto nothing. */
  lemma MergeBottom(ls: Levels, ledger: nat, limit: nat)
    requires Lawful(ls, ledger) && Founded(ls) && ls[0].curr.bucket.version <= limit
    ensures var n := |ls|;
            var r := MergeOnto(MergeOnto(Merged(EMPTY), ls[n - 1].snap, limit), ls[n - 1].curr, limit);
            Within(r, limit) && StandsFor(r, ls, n - 1)
  {
    var n := |ls|;
    var none, curr := Merged(EMPTY), ls[n - 1].curr;
    assert ShapeAt(ls, ledger, n - 1);
    SlotsWithin(ls, ledger, n - 1, limit);
    forall k ensures CreatesAt(none, k) && Entered(none, k) == Some(Absent) && At(ls[n - 1].snap, k).None? {
    }
    MergeOntoCreations(none, ls[n - 1].snap, limit);
    forall k ensures CreatesAt(curr, k) && Step(Some(Absent), At(curr, k)) == Before(ls, n - 1, k) {
      assert CreatesAt(curr, k);
    }
    MergeOntoCreations(MergeOnto(none, ls[n - 1].snap, limit), curr, limit);
  }

  /** What the whole list says of each key. */
  ghost predicate CreatesLedger(s: Slot, m: Ledger) {
    SlotOk(s) && forall k :: At(s, k) == if k in m then Some(Init(k, m[k])) else None
  }

  lemma MergeAllCreates(ls: Levels, ledger: nat, m: Ledger, protocol: nat, limit: nat)
    requires Represents(ls, ledger, m, protocol) && Founded(ls) && protocol <= limit
    ensures CreatesLedger(MergeAll(ls, limit), m)
  {
    var n := |ls|;
    MergeBottom(ls, ledger, limit);
    var bottom := MergeOnto(MergeOnto(Merged(EMPTY), ls[n - 1].snap, limit), ls[n - 1].curr, limit);
    MergeDownStands(ls, ledger, n - 1, bottom, limit);
    var r := MergeAll(ls, limit);
    forall k ensures At(r, k) == if k in m then Some(Init(k, m[k])) else None {
      StateFromBefore(ls, 0, k);
      assert CreatesAt(r, k) && Entered(r, k) == Before(ls, 0, k) && State(ls, k) == Some(StateOf(m, k));
    }
  }

  lemma {:induction false} RunMergesAll(ls: Levels, ledger: nat, m: Ledger, protocol: nat, closes: seq<Close>,
                                        limit: nat)
    requires Represents(ls, ledger, m, protocol) && Founded(ls)
    requires Legal(m, protocol, closes) && LastProtocol(protocol, closes) <= limit
    ensures CreatesLedger(MergeAll(Run(ls, ledger, closes), limit), Fold(m, closes))
  {
    RunRepresents(ls, ledger, m, protocol, closes);
    RunFounded(ls, ledger, m, protocol, closes);
    MergeAllCreates(Run(ls, ledger, closes), ledger + |closes|, Fold(m, closes), LastProtocol(protocol, closes), limit);
  }

  /** In every run from genesis, merging the whole list never throws and gives exactly the creations of the ledger that
      the batches make up. */
  lemma {:induction false} RunMergesToLedger(n: nat, closes: seq<Close>, limit: nat)
    requires 2 <= n && Legal(map[], 0, closes) && LastProtocol(0, closes) <= limit
    ensures CreatesLedger(MergeAll(Run(Initial(POLICY, n), 0, closes), limit), Fold(map[], closes))
  {
    InitialFounded(n);
    RunMergesAll(Initial(POLICY, n), 0, map[], 0, closes, limit);
  }

  lemma SameLedgerSameEntries(a: Slot, b: Slot, m: Ledger)
    requires CreatesLedger(a, m) && CreatesLedger(b, m)
    ensures a.bucket.changes == b.bucket.changes
  {
    forall k ensures Find(a.bucket.changes, k) == Find(b.bucket.changes, k) {
      assert At(a, k) == At(b, k);
    }
    SameEntries(a.bucket.changes, b.bucket.changes);
  }

  /** So neither the schedule, the number of levels nor the cut into batches can be told from it: runs that make up the
      same ledger merge to the same entries. */
  lemma {:induction false} RunsMergeAlike(n: nat, closes: seq<Close>, limit: nat,
                                          n': nat, closes': seq<Close>, limit': nat)
    requires 2 <= n && Legal(map[], 0, closes) && LastProtocol(0, closes) <= limit
    requires 2 <= n' && Legal(map[], 0, closes') && LastProtocol(0, closes') <= limit'
    requires Fold(map[], closes) == Fold(map[], closes')
    ensures var a := MergeAll(Run(Initial(POLICY, n), 0, closes), limit);
            var b := MergeAll(Run(Initial(POLICY, n'), 0, closes'), limit');
            a.Merged? && b.Merged? && a.bucket.changes == b.bucket.changes
  {
    RunMergesToLedger(n, closes, limit);
    RunMergesToLedger(n', closes', limit');
    SameLedgerSameEntries(MergeAll(Run(Initial(POLICY, n), 0, closes), limit),
                          MergeAll(Run(Initial(POLICY, n'), 0, closes'), limit'), Fold(map[], closes));
  }
}
