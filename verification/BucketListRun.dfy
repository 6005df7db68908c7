/** Whole runs of the bucket list: closing ledger after ledger, with merges finishing in the background
    at any time, the list always reads as the ledger. */
module BucketListRun {
  import opened LedgerCmp
  import opened Lifecycle
  import opened Wrappers
  import opened Buckets
  import opened Batches
  import opened SpillingList
  import opened BucketListState
  import opened BucketListRefinement
  import opened BucketListLawful

  /** One closed ledger: its batch, and the levels whose merges are found finished afterwards. */
  datatype Close = Close(batch: Batch, done: set<nat>)

  /** BucketList::addBatch. */
  function AddBatch(ls: Levels, ledger: nat, c: Close): (r: Levels)
    ensures |r| == |ls|
  {
    Resolve(POLICY, Add(POLICY, ls, ledger, c.batch.protocol, Fresh(c.batch)), c.done)
  }

  /** The list after closing the ledgers that follow `ledger`. */
  function Run(ls: Levels, ledger: nat, closes: seq<Close>): (r: Levels)
    ensures |r| == |ls|
    decreases |closes|
  {
    if closes == [] then ls else Run(AddBatch(ls, ledger + 1, closes[0]), ledger + 1, closes[1..])
  }

  /** The ledger after the same batches. */
  function Fold(m: Ledger, closes: seq<Close>): (r: Ledger)
    decreases |closes|
  {
    if closes == [] then m else Fold(ApplyChanges(m, Changes(closes[0].batch)), closes[1..])
  }

  /** Batches that can close one after the other, under protocols that never decrease. */
  predicate Legal(m: Ledger, protocol: nat, closes: seq<Close>)
    decreases |closes|
  {
    closes == [] ||
    (&& Closes(m, closes[0].batch)
     && protocol <= closes[0].batch.protocol
     && Legal(ApplyChanges(m, Changes(closes[0].batch)), closes[0].batch.protocol, closes[1..]))
  }

  /** A lawful list whose keys are in the state the ledger says. */
  ghost predicate Represents(ls: Levels, ledger: nat, m: Ledger, protocol: nat) {
    && Lawful(ls, ledger)
    && ls[0].curr.bucket.version <= protocol
    && forall k :: State(ls, k) == Some(StateOf(m, k))
  }

  // ----- lists that differ only in the progress of merges

  lemma {:induction false} AlikeTail(a: Levels, b: Levels, i: nat, s: Option<KeyState>, k: LedgerKey)
    requires Alike(POLICY, a, b) && i <= |a|
    ensures Tail(a, i, s, k) == Tail(b, i, s, k)
  {
    if i > 0 {
      AlikeTail(a, b, i - 1, Step(Step(s, At(a[i - 1].snap, k)), At(a[i - 1].curr, k)), k);
    }
  }

  lemma AlikeState(a: Levels, b: Levels, k: LedgerKey)
    requires Alike(POLICY, a, b) && 0 < |a|
    ensures State(a, k) == State(b, k)
    ensures BottomKey(a, k) ==> BottomKey(b, k)
  {
    AlikeTail(a, b, |a| - 1, Bottom(a, k), k);
  }

  lemma AlikeCovered(a: Levels, b: Levels, i: nat, k: LedgerKey)
    requires Alike(POLICY, a, b) && 0 < i < |a| && Covered(a, i, k)
    ensures Covered(b, i, k)
  {
    AlikeState(a, b, k);
    forall x ensures TailFromCurr(b, i, Some(Present(x)), k) == State(b, k) {
      assert TailFromCurr(a, i, Some(Present(x)), k) == State(a, k);
      AlikeTail(a, b, i - 1, Step(Some(Present(x)), At(a[i - 1].curr, k)), k);
    }
  }

  lemma AlikePending(a: Levels, b: Levels, ledger: nat, i: nat)
    requires Alike(POLICY, a, b) && i < |a| && SlotsOk(a) && SlotsOk(b) && PendingAt(a, ledger, i)
    ensures PendingAt(b, ledger, i)
  {
    if i > 0 && !b[i].next.Clear? {
      forall k ensures PendingKey(b, ledger, i, k) {
        assert PendingKey(a, ledger, i, k);
        if Covered(a, i, k) {
          AlikeCovered(a, b, i, k);
        }
      }
    }
  }

  lemma AlikeLawful(a: Levels, b: Levels, ledger: nat)
    requires Alike(POLICY, a, b) && Lawful(a, ledger)
    ensures Lawful(b, ledger)
    ensures forall k :: State(b, k) == State(a, k)
  {
    forall i | 0 <= i < |b| ensures ShapeAt(b, ledger, i) && VersionsAt(b, i) && PendingAt(b, ledger, i) {
      assert ShapeAt(a, ledger, i) && VersionsAt(a, i);
      AlikePending(a, b, ledger, i);
    }
    forall k ensures State(b, k) == State(a, k) && BottomKey(b, k) {
      AlikeState(a, b, k);
      assert BottomKey(a, k);
    }
  }

  // ----- the main result

  /** A batch that the ledger can close with is one the list can take in. */
  lemma BatchAccepted(ls: Levels, ledger: nat, m: Ledger, protocol: nat, c: Close)
    requires Represents(ls, ledger, m, protocol)
    requires Closes(m, c.batch) && protocol <= c.batch.protocol
    ensures Fresh(c.batch).Merged? && Accepts(ls, ledger, Fresh(c.batch).bucket)
    ensures forall k :: Step(State(ls, k), Get(Fresh(c.batch).bucket, k))
                        == Some(StateOf(ApplyChanges(m, Changes(c.batch)), k))
  {
    FreshIsTheBatch(c.batch);
    var b, m' := Fresh(c.batch).bucket, ApplyChanges(m, Changes(c.batch));
    forall k ensures Step(State(ls, k), Get(b, k)) == Some(StateOf(m', k)) {
      assert State(ls, k) == Some(StateOf(m, k));
      BatchSteps(m, c.batch, k);
    }
  }

  lemma AddBatchRepresents(ls: Levels, ledger: nat, m: Ledger, protocol: nat, c: Close)
    requires Represents(ls, ledger, m, protocol)
    requires Closes(m, c.batch) && protocol <= c.batch.protocol
    ensures Represents(AddBatch(ls, ledger + 1, c), ledger + 1, ApplyChanges(m, Changes(c.batch)), c.batch.protocol)
  {
    FreshIsTheBatch(c.batch);
    BatchAccepted(ls, ledger, m, protocol, c);
    var b := Fresh(c.batch).bucket;
    AddKeepsLawful(ls, ledger, b);
    var ls' := After(ls, ledger, b);
    ResolveIsAlike(POLICY, ls', c.done);
    AlikeLawful(ls', AddBatch(ls, ledger + 1, c), ledger + 1);
  }

  function LastProtocol(protocol: nat, closes: seq<Close>): (r: nat)
    decreases |closes|
  {
    if closes == [] then protocol else LastProtocol(closes[0].batch.protocol, closes[1..])
  }

  /** A list that represents a ledger represents, after any run, the ledger after the same batches. */
  lemma {:induction false} RunRepresents(ls: Levels, ledger: nat, m: Ledger, protocol: nat, closes: seq<Close>)
    requires Represents(ls, ledger, m, protocol) && Legal(m, protocol, closes)
    ensures Represents(Run(ls, ledger, closes), ledger + |closes|, Fold(m, closes), LastProtocol(protocol, closes))
    decreases |closes|
  {
    if closes != [] {
      AddBatchRepresents(ls, ledger, m, protocol, closes[0]);
      RunRepresents(AddBatch(ls, ledger + 1, closes[0]), ledger + 1,
                    ApplyChanges(m, Changes(closes[0].batch)), closes[0].batch.protocol, closes[1..]);
    }
  }

  lemma RepresentsReads(ls: Levels, ledger: nat, m: Ledger, protocol: nat)
    requires Represents(ls, ledger, m, protocol)
    ensures forall k :: Lookup(ls, 0, k) == StateOf(m, k)
  {
    forall k ensures Lookup(ls, 0, k) == StateOf(m, k) {
      assert State(ls, k) == Some(StateOf(m, k));
      assert ShapeAt(ls, ledger, |ls| - 1);
      LookupReadsState(ls, k);
    }
  }

  lemma InitialRepresents(n: nat)
    requires 2 <= n
    ensures Represents(Initial(POLICY, n), 0, map[], 0)
  {
    InitialIsLawful(n);
    forall k ensures State(Initial(POLICY, n), k) == Some(StateOf(map[], k)) {
    }
  }

  /** For every run from a list that represents a ledger, under protocols from 11 on that never decrease
      and whichever merges are found finished when, each key read youngest first is what folding the
      batches gives. */
  lemma RunReadsAsLedger(ls: Levels, ledger: nat, m: Ledger, protocol: nat, closes: seq<Close>)
    requires Represents(ls, ledger, m, protocol) && Legal(m, protocol, closes)
    ensures forall k :: Lookup(Run(ls, ledger, closes), 0, k) == StateOf(Fold(m, closes), k)
  {
    RunRepresents(ls, ledger, m, protocol, closes);
    RepresentsReads(Run(ls, ledger, closes), ledger + |closes|, Fold(m, closes), LastProtocol(protocol, closes));
  }

  /** In particular from the empty list. */
  lemma RunFromGenesis(n: nat, closes: seq<Close>)
    requires 2 <= n && Legal(map[], 0, closes)
    ensures forall k :: Lookup(Run(Initial(POLICY, n), 0, closes), 0, k) == StateOf(Fold(map[], closes), k)
  {
    InitialRepresents(n);
    RunReadsAsLedger(Initial(POLICY, n), 0, map[], 0, closes);
  }

  /** No slot and no future of such a run ever holds an exception. */
  lemma RunNeverThrows(ls: Levels, ledger: nat, m: Ledger, protocol: nat, closes: seq<Close>, i: nat)
    requires Represents(ls, ledger, m, protocol) && Legal(m, protocol, closes) && i < |ls|
    ensures var ls' := Run(ls, ledger, closes);
            ls'[i].curr.Merged? && ls'[i].snap.Merged? && (!ls'[i].next.Clear? ==> Future(ls', i).Merged?)
  {
    RunRepresents(ls, ledger, m, protocol, closes);
    LawfulNeverThrows(Run(ls, ledger, closes), ledger + |closes|, i);
  }

  lemma LawfulNeverThrows(ls: Levels, ledger: nat, i: nat)
    requires Lawful(ls, ledger) && i < |ls|
    ensures ls[i].curr.Merged? && ls[i].snap.Merged?
    ensures !ls[i].next.Clear? ==> Future(ls, i).Merged?
  {
    assert PendingAt(ls, ledger, i);
    assert ShapeAt(ls, ledger, i);
  }
}
