/** How a batch moves through the levels of a spilling list (src/bucket/BucketList.cpp),
    whatever the slots hold: BucketList::addBatch instantiates the slots with buckets, and the
    size calculations speak about the same list with each slot holding ledger numbers. */
module SpillingList {
  import opened Schedule

  /** What a merge is started from: MergeKey, plus the protocol version that limits it. */
  datatype Inputs<T> = Inputs(curr: T, snap: T, shadows: seq<T>, limit: nat)

  /** The future of a level's curr: none, a running merge, or its result. */
  datatype Next<T> = Clear | Merging(inputs: Inputs<T>) | Resolved(output: T)

  datatype Level<T> = Level(curr: T, snap: T, next: Next<T>)

  /** How slots combine; the flag says whether deletions are kept. */
  datatype Policy<!T> = Policy(empty: T, merge: (bool, Inputs<T>) -> T, usesShadows: T -> bool)

  /** What resolving a level's future yields. */
  function Output<T>(p: Policy<T>, n: nat, i: nat, next: Next<T>): (r: T)
    requires !next.Clear?
  {
    match next
    case Merging(inputs) => p.merge(KeepDeadEntries(n, i), inputs)
    case Resolved(output) => output
  }

  /** The new list in which every level is empty. */
  function Initial<T>(p: Policy<T>, n: nat): (r: seq<Level<T>>) {
    seq(n, _ => Level(p.empty, p.empty, Clear))
  }

  /** curr and snap of the levels younger than i, youngest first. */
  function Shadows<T>(ls: seq<Level<T>>, i: nat): (r: seq<T>)
    requires i <= |ls|
    ensures |r| == 2 * i
  {
    if i == 0 then [] else Shadows(ls, i - 1) + [ls[i - 1].curr, ls[i - 1].snap]
  }

  /** Level i promotes its future when the batch of `ledger` is added. */
  predicate Commits(n: nat, ledger: nat, i: nat) {
    0 < i < n && LevelShouldSpill(n, ledger, i - 1)
  }

  function SnapAfter<T>(ls: seq<Level<T>>, ledger: nat, i: nat): (r: T)
    requires i < |ls|
  {
    if LevelShouldSpill(|ls|, ledger, i) then ls[i].curr else ls[i].snap
  }

  /** curr of level i once the spills of `ledger` are done. */
  function CurrAfter<T>(p: Policy<T>, ls: seq<Level<T>>, ledger: nat, i: nat): (r: T)
    requires i < |ls|
  {
    if Commits(|ls|, ledger, i) && !ls[i].next.Clear? then
      Output(p, |ls|, i, ls[i].next)
    else if LevelShouldSpill(|ls|, ledger, i) then p.empty
    else ls[i].curr
  }

  function PreparedInputs<T>(p: Policy<T>, n: nat, ledger: nat, protocol: nat,
                             i: nat, curr: T, snap: T, shadows: seq<T>): (r: Inputs<T>) {
    Inputs(if ShouldMergeWithEmptyCurr(n, ledger, i) then p.empty else curr, snap,
           if p.usesShadows(snap) then shadows else [], protocol)
  }

  function NextAfter<T>(p: Policy<T>, ls: seq<Level<T>>, ledger: nat, protocol: nat, i: nat): (r: Next<T>)
    requires i < |ls|
  {
    if Commits(|ls|, ledger, i) then
      Merging(PreparedInputs(p, |ls|, ledger, protocol, i,
                             CurrAfter(p, ls, ledger, i), SnapAfter(ls, ledger, i - 1), Shadows(ls, i - 1)))
    else ls[i].next
  }

  function LevelAfter<T>(p: Policy<T>, ls: seq<Level<T>>, ledger: nat, protocol: nat, i: nat): (r: Level<T>)
    requires i < |ls|
  {
    Level(CurrAfter(p, ls, ledger, i), SnapAfter(ls, ledger, i), NextAfter(p, ls, ledger, protocol, i))
  }

  /** The list after the batch of `ledger` was added, before finished merges are resolved. */
  function Add<T>(p: Policy<T>, ls: seq<Level<T>>, ledger: nat, protocol: nat, batch: T): (r: seq<Level<T>>)
    ensures |r| == |ls|
  {
    seq(|ls|, i requires 0 <= i < |ls| =>
      if i == 0 then
        Level(p.merge(KeepDeadEntries(|ls|, 0), Inputs(CurrAfter(p, ls, ledger, 0), batch, [], protocol)),
              SnapAfter(ls, ledger, 0), Clear)
      else LevelAfter(p, ls, ledger, protocol, i))
  }

  /** The list after the running merges of the levels in `done` were resolved. */
  function Resolve<T>(p: Policy<T>, ls: seq<Level<T>>, done: set<nat>): (r: seq<Level<T>>)
    ensures |r| == |ls|
  {
    seq(|ls|, i requires 0 <= i < |ls| =>
      if i in done && ls[i].next.Merging? then ls[i].(next := Resolved(Output(p, |ls|, i, ls[i].next)))
      else ls[i])
  }

  // ----- which levels a ledger commits

  /** BucketList::getMaxMergeLevel, from level i on. */
  function MaxMergeLevelFrom(n: nat, ledger: nat, i: nat): (r: nat)
    requires i < n
    ensures i <= r < n
    decreases n - i
  {
    if i + 1 < n && LevelShouldSpill(n, ledger, i) then MaxMergeLevelFrom(n, ledger, i + 1) else i
  }

  lemma {:induction false} SpillsBelow(n: nat, ledger: nat, level: nat, i: nat)
    requires i <= level < n && LevelShouldSpill(n, ledger, level)
    ensures LevelShouldSpill(n, ledger, i)
    decreases level
  {
    if i < level {
      SpillsAreNested(n, ledger, level);
      SpillsBelow(n, ledger, level - 1, i);
    }
  }

  lemma {:induction false} ScanStopsAtFirstNonSpill(n: nat, ledger: nat, i: nat, level: nat)
    requires i < level < n
    requires i == 0 || Commits(n, ledger, i)
    ensures Commits(n, ledger, level) <==> level <= MaxMergeLevelFrom(n, ledger, i)
    decreases n - i
  {
    if LevelShouldSpill(n, ledger, i) {
      if i + 1 < level {
        ScanStopsAtFirstNonSpill(n, ledger, i + 1, level);
      }
    } else if Commits(n, ledger, level) {
      SpillsBelow(n, ledger, level - 1, i);
    }
  }

  /** Because spills are nested, the levels that addBatch commits at a ledger are exactly those up to
      getMaxMergeLevel. */
  lemma MaxMergeLevelBoundsCommits(n: nat, ledger: nat, level: nat)
    requires 0 < level < n
    ensures Commits(n, ledger, level) <==> level <= MaxMergeLevelFrom(n, ledger, 0)
  {
    ScanStopsAtFirstNonSpill(n, ledger, 0, level);
  }

  predicate FuturesAllResolved<T(!new)>(ls: seq<Level<T>>, maxLevel: nat) {
    forall i :: 0 <= i <= maxLevel && i < |ls| ==> !ls[i].next.Merging?
  }

  /** The catchup gate: the futures up to getMaxMergeLevel are all resolved exactly when adding the
      batch of that ledger promotes no future that is still being merged. */
  lemma GateAvoidsWaiting<T(!new)>(ls: seq<Level<T>>, ledger: nat)
    requires |ls| >= 1 && !ls[0].next.Merging?
    ensures FuturesAllResolved(ls, MaxMergeLevelFrom(|ls|, ledger, 0)) <==>
            forall i: nat :: Commits(|ls|, ledger, i) ==> !ls[i].next.Merging?
  {
    forall i | 0 < i < |ls|
      ensures Commits(|ls|, ledger, i) <==> i <= MaxMergeLevelFrom(|ls|, ledger, 0)
    {
      MaxMergeLevelBoundsCommits(|ls|, ledger, i);
    }
  }

  // ----- lists that read alike

  /** Two lists that differ at most in how far their merges have got. */
  ghost predicate Alike<T>(p: Policy<T>, a: seq<Level<T>>, b: seq<Level<T>>) {
    |a| == |b| && forall i :: 0 <= i < |a| ==> AlikeLevel(p, |a|, i, a[i], b[i])
  }

  ghost predicate AlikeLevel<T>(p: Policy<T>, n: nat, i: nat, a: Level<T>, b: Level<T>) {
    && a.curr == b.curr && a.snap == b.snap
    && a.next.Clear? == b.next.Clear?
    && (!a.next.Clear? ==> Output(p, n, i, a.next) == Output(p, n, i, b.next))
  }

  lemma {:induction false} AlikeShadows<T>(p: Policy<T>, a: seq<Level<T>>, b: seq<Level<T>>, i: nat)
    requires Alike(p, a, b) && i <= |a|
    ensures Shadows(a, i) == Shadows(b, i)
  {
    if i > 0 {
      assert AlikeLevel(p, |a|, i - 1, a[i - 1], b[i - 1]);
      AlikeShadows(p, a, b, i - 1);
    }
  }

  lemma AlikeAfter<T>(p: Policy<T>, a: seq<Level<T>>, b: seq<Level<T>>, ledger: nat, i: nat)
    requires Alike(p, a, b) && i < |a|
    ensures CurrAfter(p, a, ledger, i) == CurrAfter(p, b, ledger, i)
    ensures SnapAfter(a, ledger, i) == SnapAfter(b, ledger, i)
  {
    assert AlikeLevel(p, |a|, i, a[i], b[i]);
  }

  lemma AlikeNext<T>(p: Policy<T>, a: seq<Level<T>>, b: seq<Level<T>>, ledger: nat, protocol: nat, i: nat)
    requires Alike(p, a, b) && i < |a| && Commits(|a|, ledger, i)
    ensures NextAfter(p, a, ledger, protocol, i) == NextAfter(p, b, ledger, protocol, i)
  {
    AlikeAfter(p, a, b, ledger, i);
    AlikeAfter(p, a, b, ledger, i - 1);
    AlikeShadows(p, a, b, i - 1);
  }

  /** Adding a batch does not tell such lists apart. */
  lemma AddKeepsAlike<T>(p: Policy<T>, a: seq<Level<T>>, b: seq<Level<T>>, ledger: nat, protocol: nat, batch: T)
    requires Alike(p, a, b)
    ensures Alike(p, Add(p, a, ledger, protocol, batch), Add(p, b, ledger, protocol, batch))
  {
    var a', b' := Add(p, a, ledger, protocol, batch), Add(p, b, ledger, protocol, batch);
    forall i | 0 <= i < |a| ensures AlikeLevel(p, |a|, i, a'[i], b'[i]) {
      AlikeAfter(p, a, b, ledger, i);
      assert AlikeLevel(p, |a|, i, a[i], b[i]);
      if Commits(|a|, ledger, i) {
        AlikeNext(p, a, b, ledger, protocol, i);
      }
    }
  }

  lemma ResolveIsAlike<T>(p: Policy<T>, ls: seq<Level<T>>, done: set<nat>)
    ensures Alike(p, ls, Resolve(p, ls, done))
  {
    var ls' := Resolve(p, ls, done);
    forall i | 0 <= i < |ls| ensures AlikeLevel(p, |ls|, i, ls[i], ls'[i]) {
    }
  }
}
