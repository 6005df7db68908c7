/** The bucket list as a value: its slots hold the outcome of merges, and reading a key through the
    slots, oldest first, is a chain of lifecycle steps. */
module BucketListState {
  import opened LedgerCmp
  import opened Lifecycle
  import opened Wrappers
  import opened Buckets
  import opened Schedule
  import opened SpillingList

  /** A bucket, or the exception that resolving its merge raises. */
  type Slot = MergeResult

  type Levels = seq<Level<Slot>>

  predicate AllMerged(s: seq<Slot>) {
    forall i :: 0 <= i < |s| ==> s[i].Merged?
  }

  function Contents(s: seq<Slot>): (r: seq<Bucket>)
    requires AllMerged(s)
  {
    seq(|s|, i requires 0 <= i < |s| => s[i].bucket)
  }

  function MergeSlots(keepDead: bool, inputs: Inputs<Slot>): (r: Slot) {
    if inputs.curr.Failed? then inputs.curr
    else if inputs.snap.Failed? then inputs.snap
    else if !AllMerged(inputs.shadows) then Failed(Malformed)
    else Merge(inputs.limit, inputs.curr.bucket, inputs.snap.bucket, Contents(inputs.shadows), keepDead)
  }

  /** BucketLevel::prepare hands on the shadows only to merges of buckets older than their removal. */
  predicate UsesShadows(snap: Slot) {
    snap.Merged? ==> snap.bucket.version < FIRST_PROTOCOL_SHADOWS_REMOVED
  }

  const POLICY: Policy<Slot> := Policy(Merged(EMPTY), MergeSlots, UsesShadows)

  // ----- reading a key

  function At(s: Slot, k: LedgerKey): (r: Option<Change>)
    ensures r.Some? ==> r.value.key == k
  {
    if s.Merged? then Get(s.bucket, k) else None
  }

  /** Youngest first: the first entry found decides. */
  function Lookup(ls: Levels, i: nat, k: LedgerKey): (r: KeyState)
    requires i <= |ls|
    decreases |ls| - i
  {
    if i == |ls| then Absent
    else if At(ls[i].curr, k).Some? then Reads(At(ls[i].curr, k).value)
    else if At(ls[i].snap, k).Some? then Reads(At(ls[i].snap, k).value)
    else Lookup(ls, i + 1, k)
  }

  function Reads(c: Change): (r: KeyState) {
    if c.Dead? then Absent else Present(c.body)
  }

  /** The lifecycle through the levels younger than i, from a state before their oldest slot. */
  function Tail(ls: Levels, i: nat, s: Option<KeyState>, k: LedgerKey): (r: Option<KeyState>)
    requires i <= |ls|
  {
    if i == 0 then s
    else Tail(ls, i - 1, Step(Step(s, At(ls[i - 1].snap, k)), At(ls[i - 1].curr, k)), k)
  }

  /** The same, from a state after the snap of level i-1. */
  function TailFromCurr(ls: Levels, i: nat, s: Option<KeyState>, k: LedgerKey): (r: Option<KeyState>)
    requires 0 < i <= |ls|
  {
    Tail(ls, i - 1, Step(s, At(ls[i - 1].curr, k)), k)
  }

  /** What the curr of the last level says: nothing is older, so its entries need no predecessor. */
  function Bottom(ls: Levels, k: LedgerKey): (r: Option<KeyState>)
    requires 0 < |ls|
  {
    var c := At(ls[|ls| - 1].curr, k);
    Some(if c.None? then Absent else Reads(c.value))
  }

  /** The lifecycle of a key through the whole list. */
  function State(ls: Levels, k: LedgerKey): (r: Option<KeyState>)
    requires 0 < |ls|
  {
    Tail(ls, |ls| - 1, Bottom(ls, k), k)
  }

  /** The state after the curr of level i. */
  function Before(ls: Levels, i: nat, k: LedgerKey): (r: Option<KeyState>)
    requires i < |ls|
    decreases |ls| - i
  {
    if i + 1 == |ls| then Bottom(ls, k)
    else Step(Step(Before(ls, i + 1, k), At(ls[i].snap, k)), At(ls[i].curr, k))
  }

  lemma {:induction false} TailOfNone(ls: Levels, i: nat, k: LedgerKey)
    requires i <= |ls|
    ensures Tail(ls, i, None, k).None?
  {
    if i > 0 {
      TailOfNone(ls, i - 1, k);
    }
  }

  lemma TailDefined(ls: Levels, i: nat, s: Option<KeyState>, k: LedgerKey)
    requires i <= |ls| && Tail(ls, i, s, k).Some?
    ensures s.Some?
  {
    if s.None? {
      TailOfNone(ls, i, k);
    }
  }

  lemma {:induction false} StateFromBefore(ls: Levels, i: nat, k: LedgerKey)
    requires i < |ls|
    ensures State(ls, k) == Tail(ls, i, Before(ls, i, k), k)
    decreases |ls| - i
  {
    if i + 1 < |ls| {
      StateFromBefore(ls, i + 1, k);
    }
  }

  lemma BeforeDefined(ls: Levels, i: nat, k: LedgerKey)
    requires i < |ls| && State(ls, k).Some?
    ensures Before(ls, i, k).Some?
    ensures i + 1 < |ls| ==> Before(ls, i + 1, k).Some? && Step(Before(ls, i + 1, k), At(ls[i].snap, k)).Some?
  {
    StateFromBefore(ls, i, k);
    TailDefined(ls, i, Before(ls, i, k), k);
  }

  /** Where the lifecycle is legal, reading youngest first finds its final state. */
  lemma {:induction false} LookupIsState(ls: Levels, i: nat, k: LedgerKey)
    requires i < |ls| && State(ls, k).Some?
    requires At(ls[|ls| - 1].snap, k).None?
    ensures Before(ls, i, k) == Some(Lookup(ls, i, k))
    decreases |ls| - i
  {
    BeforeDefined(ls, i, k);
    if i + 1 < |ls| {
      LookupIsState(ls, i + 1, k);
    } else {
      assert Lookup(ls, i + 1, k) == Absent;
    }
  }

  lemma LookupReadsState(ls: Levels, k: LedgerKey)
    requires 0 < |ls| && State(ls, k).Some?
    requires At(ls[|ls| - 1].snap, k).None?
    ensures State(ls, k) == Some(Lookup(ls, 0, k))
  {
    StateFromBefore(ls, 0, k);
    LookupIsState(ls, 0, k);
  }

  predicate HasEntry(ls: Levels, i: nat, k: LedgerKey)
    requires i <= |ls|
  {
    i > 0 && (At(ls[i - 1].snap, k).Some? || At(ls[i - 1].curr, k).Some? || HasEntry(ls, i - 1, k))
  }

  /** Once some younger slot has an entry for the key, the body it had before does not matter. */
  lemma {:induction false} EntryHidesBody(ls: Levels, i: nat, x: int, y: int, k: LedgerKey)
    requires i <= |ls| && HasEntry(ls, i, k)
    ensures Tail(ls, i, Some(Present(x)), k) == Tail(ls, i, Some(Present(y)), k)
  {
    var a := Step(Step(Some(Present(x)), At(ls[i - 1].snap, k)), At(ls[i - 1].curr, k));
    var b := Step(Step(Some(Present(y)), At(ls[i - 1].snap, k)), At(ls[i - 1].curr, k));
    if a != b {
      EntryHidesBody(ls, i - 1, x, y, k);
    }
  }

  // ----- lawful lists

  predicate SlotOk(s: Slot) {
    s.Merged? && WellFormed(s.bucket)
  }

  predicate SlotsOk(ls: Levels) {
    forall i :: 0 <= i < |ls| ==> SlotOk(ls[i].curr) && SlotOk(ls[i].snap)
  }

  predicate InUse(s: Slot) {
    s.Merged? && FIRST_PROTOCOL_SUPPORTING_INITENTRY_AND_METAENTRY <= s.bucket.version
  }

  /** Which slots and futures of level i are in use at a ledger: curr from the second spill of the level
      above on, snap from the level's first spill on, the future from the first spill above on. The snap
      of the last level is never used. */
  predicate ShapeAt(ls: Levels, ledger: nat, i: nat)
    requires i < |ls|
  {
    && (ledger < CurrSince(i) ==> ls[i].curr == Merged(EMPTY))
    && (CurrSince(i) <= ledger && i + 1 < |ls| ==> InUse(ls[i].curr))
    && (ledger < LevelHalf(i) || i + 1 == |ls| ==> ls[i].snap == Merged(EMPTY))
    && (LevelHalf(i) <= ledger && i + 1 < |ls| ==> InUse(ls[i].snap))
    && (i == 0 ==> ls[i].next.Clear?)
    && (i > 0 ==> (ls[i].next.Clear? <==> ledger < LevelHalf(i - 1)))
  }

  /** Older slots carry older versions. */
  predicate VersionsAt(ls: Levels, i: nat)
    requires i < |ls| && SlotsOk(ls)
  {
    && ls[i].snap.bucket.version <= ls[i].curr.bucket.version
    && (i > 0 ==> ls[i].curr.bucket.version <= ls[i - 1].snap.bucket.version)
  }

  /** Whatever body the key had after the snap of level i-1, younger slots decide what is read. */
  ghost predicate Covered(ls: Levels, i: nat, k: LedgerKey)
    requires 0 < i < |ls|
  {
    forall x :: TailFromCurr(ls, i, Some(Present(x)), k) == State(ls, k)
  }

  function PendingCurr(ls: Levels, ledger: nat, i: nat, k: LedgerKey): (r: Option<Change>)
    requires i < |ls|
    ensures r.Some? ==> r.value.key == k
  {
    if ShouldMergeWithEmptyCurr(|ls|, ledger, i) then None else At(ls[i].curr, k)
  }

  function Future(ls: Levels, i: nat): (r: Slot)
    requires i < |ls| && !ls[i].next.Clear?
  {
    Output(POLICY, |ls|, i, ls[i].next)
  }

  /** The pending merge of level i holds, for each key, the composition of the slots it was started from.
      Above the last level an update may be missing if younger slots hide it; on the last level only
      deletions are missing. */
  ghost predicate PendingKey(ls: Levels, ledger: nat, i: nat, k: LedgerKey)
    requires 0 < i < |ls| && !ls[i].next.Clear?
  {
    var c, s, r := PendingCurr(ls, ledger, i, k), At(ls[i - 1].snap, k), At(Future(ls, i), k);
    && !Clash(c, s)
    && var m := Compose(c, s);
       if i + 1 == |ls| then r == (if m.Some? && m.value.Dead? then None else m)
       else r == m || (r.None? && m.Some? && m.value.Live? && Covered(ls, i, k))
  }

  ghost predicate PendingAt(ls: Levels, ledger: nat, i: nat)
    requires i < |ls| && SlotsOk(ls)
  {
    i > 0 && !ls[i].next.Clear? ==>
      && SlotOk(Future(ls, i))
      && Future(ls, i).bucket.version == ls[i - 1].snap.bucket.version
      && forall k :: PendingKey(ls, ledger, i, k)
  }

  predicate PastShadows(s: Slot) {
    s.Merged? && FIRST_PROTOCOL_SHADOWS_REMOVED <= s.bucket.version
  }

  /** The last level holds no deletions; updates without a creation, left by protocols before 11, only
      once every other slot is past the use of shadows. */
  predicate BottomKey(ls: Levels, k: LedgerKey)
    requires 0 < |ls|
  {
    var c := At(ls[|ls| - 1].curr, k);
    && (c.Some? ==> !c.value.Dead?)
    && (c.Some? && c.value.Live? ==>
          forall i :: 0 <= i < |ls| - 1 ==> PastShadows(ls[i].curr) && PastShadows(ls[i].snap))
  }

  ghost predicate Lawful(ls: Levels, ledger: nat) {
    && 2 <= |ls|
    && SlotsOk(ls)
    && (forall i :: 0 <= i < |ls| ==> ShapeAt(ls, ledger, i))
    && (forall i :: 0 <= i < |ls| ==> VersionsAt(ls, i))
    && (forall i :: 0 <= i < |ls| ==> PendingAt(ls, ledger, i))
    && (forall k :: BottomKey(ls, k))
    && (forall k :: State(ls, k).Some?)
  }

  lemma {:induction false} TailOfInitial(n: nat, i: nat, s: Option<KeyState>, k: LedgerKey)
    requires i <= n
    ensures Tail(Initial(POLICY, n), i, s, k) == s
  {
    if i > 0 {
      TailOfInitial(n, i - 1, s, k);
    }
  }

  /** The empty list is lawful, and no key is present in it. */
  lemma InitialIsLawful(n: nat)
    requires 2 <= n
    ensures Lawful(Initial(POLICY, n), 0)
    ensures forall k :: State(Initial(POLICY, n), k) == Some(Absent)
  {
    var ls := Initial(POLICY, n);
    forall k ensures State(ls, k) == Some(Absent) {
      TailOfInitial(n, n - 1, Some(Absent), k);
    }
  }
}
