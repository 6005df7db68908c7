/** The future of a level's curr (src/bucket/FutureBucket.cpp, src/bucket/FutureBucket.h). A hash is represented
    by the bucket it was computed from, and the empty string by None. */
module FutureBuckets {
  import opened LedgerCmp
  import opened Lifecycle
  import opened Wrappers
  import opened Buckets
  import opened BucketMergeMaps
  import opened BucketManagers
  import opened Schedule
  import opened SpillingList
  import opened BucketListState

  datatype State = FB_CLEAR | FB_HASH_OUTPUT | FB_HASH_INPUTS | FB_LIVE_OUTPUT | FB_LIVE_INPUTS

  /** All fields of a future bucket. */
  datatype Fields = Fields(
    state: State,
    curr: Option<Bucket>, snap: Option<Bucket>, shadows: seq<Bucket>,
    output: Option<Bucket>, future: Option<Future>,
    currHash: Option<Hash>, snapHash: Option<Hash>, shadowHashes: seq<Hash>, outputHash: Option<Hash>)
  {
    predicate IsLive() {
      state == FB_LIVE_INPUTS || state == FB_LIVE_OUTPUT
    }

    /** checkHashesMatch, for a live future bucket. */
    predicate HashesMatch() {
      && (shadows != [] ==> shadows == shadowHashes)
      && (snap.Some? ==> snap == snapHash)
      && (curr.Some? ==> curr == currHash)
      && (output.Some? && outputHash.Some? ==> output == outputHash)
    }

    predicate CheckState() {
      match state
      case FB_CLEAR =>
        && shadows == [] && snap.None? && curr.None? && output.None? && future.None?
        && shadowHashes == [] && snapHash.None? && currHash.None? && outputHash.None?
      case FB_LIVE_INPUTS =>
        snap.Some? && curr.Some? && future.Some? && output.None? && outputHash.None? && HashesMatch()
      case FB_LIVE_OUTPUT =>
        output.Some? && future.None? && outputHash.Some? && HashesMatch()
      case FB_HASH_INPUTS =>
        && snap.None? && curr.None? && output.None? && future.None?
        && snapHash.Some? && currHash.Some? && outputHash.None?
      case FB_HASH_OUTPUT =>
        && snap.None? && curr.None? && output.None? && future.None?
        && snapHash.None? && currHash.None? && outputHash.Some?
    }

    /** The merge that the inputs of the live or hashed future bucket name. */
    function Key(keepDead: bool): (r: MergeKey)
      requires currHash.Some? && snapHash.Some?
    {
      MergeKey(keepDead, currHash.value, snapHash.value, shadowHashes)
    }

    /** Reachable: the state is one checkState accepts, and a running merge is the merge of the inputs. */
    ghost predicate Reachable(keepDead: bool) {
      && CheckState()
      && (state != FB_HASH_INPUTS && state != FB_LIVE_INPUTS ==>
            shadows == [] && shadowHashes == [] && snap.None? && curr.None? && snapHash.None? && currHash.None?)
      && (state == FB_HASH_INPUTS ==> shadows == [])
      && (state == FB_LIVE_INPUTS ==> shadows == shadowHashes && Serves(future.value, Key(keepDead)))
    }
  }

  const CLEARED := Fields(FB_CLEAR, None, None, [], None, None, None, None, [], None)

  /** A future of the given merge, whatever limit it was started under. */
  ghost predicate Serves(f: Future, key: MergeKey) {
    match f
    case Running(k, _) => k == key
    case Ready(b) => Yields(key, b)
  }

  /** Whether the version of a merge is within the limit its future was started under. */
  predicate WithinLimit(f: Future, key: MergeKey) {
    f.Running? ==> Version(key) <= f.limit
  }

  /** Two futures of one merge give the same, unless just one of them was started under too low a limit. */
  lemma FuturesAgree(key: MergeKey, f: Future, g: Future)
    requires Serves(f, key) && Serves(g, key)
    ensures f.Value() == g.Value() <==> (WithinLimit(f, key) <==> WithinLimit(g, key))
  {
    var f' := if f.Running? then f.limit else Version(key);
    var g' := if g.Running? then g.limit else Version(key);
    OutcomeDependsOnLimit(key, f', g');
  }

  // ----- saving and loading

  /** What the archive holds; a load reads the members that its state calls for. */
  datatype Archive = Archive(state: State, curr: Option<Hash>, snap: Option<Hash>, shadow: seq<Hash>,
                             output: Option<Hash>)

  function Save(f: Fields): (r: Archive) {
    match f.state
    case FB_LIVE_INPUTS => Archive(FB_HASH_INPUTS, f.currHash, f.snapHash, f.shadowHashes, None)
    case FB_HASH_INPUTS => Archive(FB_HASH_INPUTS, f.currHash, f.snapHash, f.shadowHashes, None)
    case FB_LIVE_OUTPUT => Archive(FB_HASH_OUTPUT, None, None, [], f.outputHash)
    case FB_HASH_OUTPUT => Archive(FB_HASH_OUTPUT, None, None, [], f.outputHash)
    case FB_CLEAR => Archive(FB_CLEAR, None, None, [], None)
  }

  /** The archives that load accepts. */
  predicate Loadable(a: Archive) {
    match a.state
    case FB_HASH_INPUTS => a.curr.Some? && a.snap.Some?
    case FB_HASH_OUTPUT => a.output.Some?
    case FB_CLEAR => true
    case _ => false
  }

  function Load(a: Archive): (r: Fields)
    requires Loadable(a)
    ensures r.CheckState() && r.state == a.state
  {
    match a.state
    case FB_HASH_INPUTS => CLEARED.(state := FB_HASH_INPUTS, currHash := a.curr, snapHash := a.snap,
                                    shadowHashes := a.shadow)
    case FB_HASH_OUTPUT => CLEARED.(state := FB_HASH_OUTPUT, outputHash := a.output)
    case FB_CLEAR => CLEARED
  }

  /** The fields once the hashed buckets are there, and a future for a merge of inputs. */
  function MadeLive(f: Fields, future: Future): (r: Fields) {
    match f.state
    case FB_HASH_OUTPUT => f.(state := FB_LIVE_OUTPUT, output := f.outputHash)
    case _ => f.(state := FB_LIVE_INPUTS, curr := f.currHash, snap := f.snapHash, shadows := f.shadowHashes,
                 future := Some(future))
  }

  /** What resolving gives. */
  function Resolution(f: Fields): (r: MergeResult)
    requires f.CheckState() && f.IsLive()
  {
    if f.state == FB_LIVE_OUTPUT then Merged(f.output.value) else f.future.value.Value()
  }

  /** The same future bucket without its inputs. */
  function Emptied(f: Fields): (r: Fields) {
    f.(curr := None, snap := None, shadows := [], currHash := None, snapHash := None, shadowHashes := [])
  }

  ghost predicate InputsWellFormed(f: Fields) {
    f.state == FB_LIVE_INPUTS && f.curr.Some? && f.snap.Some? ==> WellFormed(f.curr.value) && WellFormed(f.snap.value)
  }

  /** What it takes for a live future bucket to resolve, stated on its inputs and the limit of its merge. */
  ghost predicate CanResolve(f: Fields, keepDead: bool)
    requires f.CheckState() && f.IsLive()
  {
    f.state == FB_LIVE_OUTPUT ||
    var key := f.Key(keepDead);
    && WithinLimit(f.future.value, key)
    && ShadowsSupported(Version(key), key.shadows)
    && NeverClash(key.curr, key.snap)
  }

  lemma ResolvesIff(f: Fields, keepDead: bool)
    requires f.Reachable(keepDead) && f.IsLive() && InputsWellFormed(f)
    ensures Resolution(f).Merged? <==> CanResolve(f, keepDead)
  {
    if f.state == FB_LIVE_INPUTS {
      var key, future := f.Key(keepDead), f.future.value;
      OutcomeIsExact(key, if future.Running? then future.limit else Version(key));
    }
  }

  /** Inputs that clash exist: an entry that is live in curr is created once more in snap. The future bucket is one
      that a merge of these two well-formed buckets starts with; resolving it fails, and what is left of it is in a
      state that checkState does not accept. */
  lemma ClashDoesNotResolve(k: LedgerKey, value: int, keepDead: bool)
    ensures var c, s := Bucket(11, [Live(k, value)]), Bucket(11, [Init(k, value)]);
            var f := Fields(FB_LIVE_INPUTS, Some(c), Some(s), [], None, Some(Running(MergeKey(keepDead, c, s, []), 11)),
                            Some(c), Some(s), [], None);
            && f.Reachable(keepDead) && f.IsLive() && InputsWellFormed(f)
            && Resolution(f) == Failed(Malformed) && !CanResolve(f, keepDead) && !Emptied(f).CheckState()
  {
    var c, s := Bucket(11, [Live(k, value)]), Bucket(11, [Init(k, value)]);
    MergeOutcome(11, c, s, [], keepDead);
    assert Clash(Get(c, k), Get(s, k));
  }

  /** A reachable future bucket can be saved and loaded; saving again gives the same archive, and a future bucket
      that was not live is given back exactly. */
  lemma SaveLoad(f: Fields, keepDead: bool)
    requires f.Reachable(keepDead)
    ensures Loadable(Save(f)) && Load(Save(f)).Reachable(keepDead) && Save(Load(Save(f))) == Save(f)
    ensures !f.IsLive() ==> Load(Save(f)) == f
  {
  }

  /** Saved, loaded and made live again, a future bucket resolves to the same as before, unless just one of the
      two merges was started under too low a limit. */
  lemma SaveLoadMakeLive(f: Fields, keepDead: bool, future: Future)
    requires f.Reachable(keepDead) && f.IsLive()
    requires f.state == FB_LIVE_INPUTS ==> Serves(future, f.Key(keepDead))
    ensures MadeLive(Load(Save(f)), future).Reachable(keepDead) && MadeLive(Load(Save(f)), future).IsLive()
    ensures Resolution(MadeLive(Load(Save(f)), future)) == Resolution(f) <==>
              (f.state == FB_LIVE_INPUTS ==>
                 (WithinLimit(f.future.value, f.Key(keepDead)) <==> WithinLimit(future, f.Key(keepDead))))
  {
    if f.state == FB_LIVE_INPUTS {
      FuturesAgree(f.Key(keepDead), f.future.value, future);
    }
  }

  // ----- the futures of the list

  function Slots(bs: seq<Bucket>): (r: seq<Slot>)
    ensures |r| == |bs|
  {
    seq(|bs|, i requires 0 <= i < |bs| => Merged(bs[i]))
  }

  /** The future of level i, as the list uses it: a merge under a limit, or its output. */
  function AsNext(f: Fields, limit: nat): (r: Next<Slot>)
    requires f.CheckState() && f.IsLive()
  {
    if f.state == FB_LIVE_OUTPUT then Resolved(Merged(f.output.value))
    else Merging(Inputs(Merged(f.curr.value), Merged(f.snap.value), Slots(f.shadows), limit))
  }

  /** A future bucket resolves to what the list expects of it, unless just one of the two limits is too low. */
  lemma ResolvesAsNext(f: Fields, n: nat, i: nat, limit: nat)
    requires f.Reachable(KeepDeadEntries(n, i)) && f.IsLive()
    ensures Resolution(f) == Output(POLICY, n, i, AsNext(f, limit)) <==>
              (f.state == FB_LIVE_INPUTS ==>
                 (WithinLimit(f.future.value, f.Key(KeepDeadEntries(n, i))) <==>
                  Version(f.Key(KeepDeadEntries(n, i))) <= limit))
  {
    if f.state == FB_LIVE_INPUTS {
      var keepDead := KeepDeadEntries(n, i);
      var inputs := AsNext(f, limit).inputs;
      assert Contents(inputs.shadows) == f.shadows;
      assert POLICY.merge(keepDead, inputs) == MergeSlots(keepDead, inputs);
      FuturesAgree(f.Key(keepDead), f.future.value, Running(f.Key(keepDead), limit));
    }
  }

  // ----- the object

  /** The buckets a future bucket holds or will need. */
  function HashesOf(f: Fields): (r: set<Hash>) {
    Known(f.currHash) + Known(f.snapHash) + (set h | h in f.shadowHashes) + Known(f.outputHash)
  }

  function Known(h: Option<Hash>): (r: set<Hash>) {
    if h.Some? then {h.value} else {}
  }

  /** The bucket of this hash can be had. */
  predicate Stored(files: set<Hash>, h: Hash) {
    h == EMPTY || h in files
  }

  ghost predicate AllStored(files: set<Hash>, hashes: seq<Hash>) {
    forall i :: 0 <= i < |hashes| ==> Stored(files, hashes[i])
  }

  ghost predicate Available(files: set<Hash>, f: Fields)
    requires f.CheckState()
  {
    && (f.state == FB_HASH_OUTPUT ==> Stored(files, f.outputHash.value))
    && (f.state == FB_HASH_INPUTS ==>
          && Stored(files, f.currHash.value) && Stored(files, f.snapHash.value)
          && AllStored(files, f.shadowHashes))
  }

  /** A merge of a key was asked for under a limit: the future is the running one, a finished one or a new one. */
  ghost predicate Started(bm: BucketManager, before: map<MergeKey, nat>, key: MergeKey, limit: nat, f: Future)
    reads bm, bm.finished
  {
    && Serves(f, key)
    && (f.Running? ==>
          && f.limit == (if key in before then before[key] else limit)
          && bm.live == before[key := f.limit])
    && (f.Ready? ==> key !in before && bm.live == before && MergeRecord(key, f.bucket) in bm.finished.records)
  }

  method LoadShadows(bm: BucketManager, hashes: seq<Hash>) returns (r: Option<seq<Bucket>>)
    requires bm.Valid()
    modifies bm`shared
    ensures bm.Valid() && r == if AllStored(bm.files, hashes) then Some(hashes) else None
  {
    ghost var files := bm.files;
    var loaded: seq<Bucket> := [];
    for i := 0 to |hashes|
      invariant bm.Valid() && loaded == hashes[..i] && AllStored(files, loaded)
    {
      var b := bm.GetBucketByHash(hashes[i]);
      if b.None? {
        assert !Stored(files, hashes[i]);
        return None;
      }
      loaded := loaded + [b.value];
    }
    assert loaded == hashes;
    return Some(loaded);
  }

  method LoadInputs(bm: BucketManager, curr: Hash, snap: Hash, shadows: seq<Hash>)
      returns (c: Option<Bucket>, s: Option<Bucket>, sh: Option<seq<Bucket>>)
    requires bm.Valid()
    modifies bm`shared
    ensures bm.Valid()
    ensures c == if Stored(bm.files, curr) then Some(curr) else None
    ensures s == if Stored(bm.files, snap) then Some(snap) else None
    ensures sh == if AllStored(bm.files, shadows) then Some(shadows) else None
  {
    c := bm.GetBucketByHash(curr);
    s := bm.GetBucketByHash(snap);
    sh := LoadShadows(bm, shadows);
  }

  class FutureBucket {
    var state: State
    var curr: Option<Bucket>
    var snap: Option<Bucket>
    var shadows: seq<Bucket>
    var output: Option<Bucket>
    var future: Option<Future>
    var currHash: Option<Hash>
    var snapHash: Option<Hash>
    var shadowHashes: seq<Hash>
    var outputHash: Option<Hash>
    /** Whether the merges of the level this future bucket belongs to keep dead entries. */
    const keepDead: bool

    function Value(): (r: Fields)
      reads this
    {
      Fields(state, curr, snap, shadows, output, future, currHash, snapHash, shadowHashes, outputHash)
    }

    ghost predicate Valid()
      reads this
    {
      Value().Reachable(keepDead)
    }

    constructor (keepDead: bool)
      ensures Valid() && Value() == CLEARED && this.keepDead == keepDead
    {
      state, curr, snap, shadows, output, future := FB_CLEAR, None, None, [], None, None;
      currHash, snapHash, shadowHashes, outputHash := None, None, [], None;
      this.keepDead := keepDead;
    }

    method ClearInputs()
      modifies this
      ensures Value() == Emptied(old(Value()))
    {
      shadows, snap, curr := [], None, None;
      shadowHashes, snapHash, currHash := [], None, None;
    }

    /** clear, from whatever state. */
    method Clear()
      modifies this
      ensures Valid() && Value() == CLEARED
    {
      state := FB_CLEAR;
      ClearInputs();
      future, outputHash, output := None, None, None;
    }

    /** The constructor that starts a merge at once; it throws exactly if it is given shadows that the version of
        snap no longer supports. */
    method Merge(bm: BucketManager, limit: nat, c: Bucket, s: Bucket, sh: seq<Bucket>) returns (ok: bool)
      requires Valid() && state == FB_CLEAR && bm.Valid()
      modifies this, bm`live, bm`shared
      ensures bm.Valid() && ok == (s.version < FIRST_PROTOCOL_SHADOWS_REMOVED || sh == [])
      ensures !ok ==> bm.live == old(bm.live)
      ensures ok ==> Valid() && state == FB_LIVE_INPUTS && Value().Key(keepDead) == MergeKey(keepDead, c, s, sh)
      ensures ok ==> Started(bm, old(bm.live), MergeKey(keepDead, c, s, sh), limit, future.value)
    {
      state, curr, snap, shadows := FB_LIVE_INPUTS, Some(c), Some(s), sh;
      currHash, snapHash := Some(c), Some(s);
      if FIRST_PROTOCOL_SHADOWS_REMOVED <= s.version && sh != [] {
        return false;
      }
      shadowHashes := sh;
      StartMerge(bm, limit);
      return true;
    }

    /** startMerge: attaches to a running or finished merge of these inputs, or starts one. */
    method StartMerge(bm: BucketManager, limit: nat)
      requires state == FB_LIVE_INPUTS && curr.Some? && snap.Some? && future.None? && output.None? && outputHash.None?
      requires currHash == curr && snapHash == snap && shadowHashes == shadows && bm.Valid()
      modifies this`future, bm`live, bm`shared
      ensures bm.Valid() && Valid() && future.Some?
      ensures Started(bm, old(bm.live), Value().Key(keepDead), limit, future.value)
    {
      var key := MergeKey(keepDead, curr.value, snap.value, shadows);
      var f := bm.GetMergeFuture(key);
      if f.Some? {
        future := f;
      } else {
        bm.PutMergeFuture(key, limit);
        future := Some(Running(key, limit));
      }
    }

    /** resolve: a merge that fails leaves a state that checkState does not accept, and only such a merge does. */
    method Resolve() returns (r: MergeResult)
      requires Valid() && Value().IsLive()
      modifies this
      ensures r == Resolution(old(Value()))
      ensures Value().CheckState() <==> r.Merged?
      ensures InputsWellFormed(old(Value())) ==> (Value().CheckState() <==> CanResolve(old(Value()), keepDead))
      ensures r.Merged? ==> Valid() && state == FB_LIVE_OUTPUT && output == Some(r.bucket)
      ensures r.Failed? ==> Value() == Emptied(old(Value()))
    {
      ghost var before := Value();
      if state == FB_LIVE_OUTPUT {
        return Merged(output.value);
      }
      if InputsWellFormed(before) {
        ResolvesIff(before, keepDead);
      }
      ClearInputs();
      r := future.value.Value();
      if r.Merged? {
        output, outputHash, future := Some(r.bucket), Some(r.bucket), None;
        state := FB_LIVE_OUTPUT;
      }
    }

    /** makeLive; the program stops if a bucket is missing. */
    method MakeLive(bm: BucketManager, limit: nat) returns (ok: bool)
      requires Valid() && (state == FB_HASH_INPUTS || state == FB_HASH_OUTPUT) && bm.Valid()
      modifies this, bm`live, bm`shared
      ensures bm.Valid() && ok == Available(bm.files, old(Value()))
      ensures !ok ==> bm.live == old(bm.live)
      ensures ok ==> Valid() && Value().IsLive()
      ensures ok && old(state) == FB_HASH_OUTPUT ==>
                Value() == MadeLive(old(Value()), Ready(EMPTY)) && bm.live == old(bm.live)
      ensures ok && old(state) == FB_HASH_INPUTS ==>
                && future.Some? && Value() == MadeLive(old(Value()), future.value)
                && Started(bm, old(bm.live), old(Value()).Key(keepDead), limit, future.value)
    {
      if state == FB_HASH_OUTPUT {
        ok := MakeOutputLive(bm);
      } else {
        ok := MakeInputsLive(bm, limit);
      }
    }

    method MakeOutputLive(bm: BucketManager) returns (ok: bool)
      requires Valid() && state == FB_HASH_OUTPUT && bm.Valid()
      modifies this, bm`shared
      ensures bm.Valid() && ok == Stored(bm.files, old(outputHash.value))
      ensures ok ==> Valid() && Value() == MadeLive(old(Value()), Ready(EMPTY))
    {
      var b := bm.GetBucketByHash(outputHash.value);
      if b.Some? {
        state, output := FB_LIVE_OUTPUT, b;
      }
      return b.Some?;
    }

    method MakeInputsLive(bm: BucketManager, limit: nat) returns (ok: bool)
      requires Valid() && state == FB_HASH_INPUTS && bm.Valid()
      modifies this, bm`live, bm`shared
      ensures bm.Valid() && ok == Available(bm.files, old(Value()))
      ensures !ok ==> bm.live == old(bm.live)
      ensures ok ==> Valid() && future.Some? && Value() == MadeLive(old(Value()), future.value)
      ensures ok ==> Started(bm, old(bm.live), old(Value()).Key(keepDead), limit, future.value)
    {
      ok := ReadInputs(bm);
      if ok {
        StartMerge(bm, limit);
      }
    }

    method ReadInputs(bm: BucketManager) returns (ok: bool)
      requires Valid() && state == FB_HASH_INPUTS && bm.Valid()
      modifies this`curr, this`snap, this`shadows, this`state, bm`shared
      ensures bm.Valid() && ok == Available(bm.files, old(Value()))
      ensures ok ==> state == FB_LIVE_INPUTS && curr == currHash && snap == snapHash && shadows == shadowHashes
    {
      var c, s, sh := LoadInputs(bm, currHash.value, snapHash.value, shadowHashes);
      if c.None? || s.None? || sh.None? {
        return false;
      }
      curr, snap, shadows, state := c, s, sh.value, FB_LIVE_INPUTS;
      return true;
    }

    method SaveTo() returns (a: Archive)
      requires Valid()
      ensures a == Save(Value()) && Loadable(a)
    {
      SaveLoad(Value(), keepDead);
      match state
      case FB_LIVE_INPUTS => a := Archive(FB_HASH_INPUTS, currHash, snapHash, shadowHashes, None);
      case FB_HASH_INPUTS => a := Archive(FB_HASH_INPUTS, currHash, snapHash, shadowHashes, None);
      case FB_LIVE_OUTPUT => a := Archive(FB_HASH_OUTPUT, None, None, [], outputHash);
      case FB_HASH_OUTPUT => a := Archive(FB_HASH_OUTPUT, None, None, [], outputHash);
      case FB_CLEAR => a := Archive(FB_CLEAR, None, None, [], None);
    }

    /** load, from whatever state. */
    method LoadFrom(a: Archive) returns (ok: bool)
      modifies this
      ensures ok == Loadable(a)
      ensures ok ==> Valid() && Value() == Load(a)
    {
      Clear();
      state := a.state;
      match state
      case FB_HASH_INPUTS =>
        currHash, snapHash, shadowHashes := a.curr, a.snap, a.shadow;
        return currHash.Some? && snapHash.Some?;
      case FB_HASH_OUTPUT =>
        outputHash := a.output;
        return outputHash.Some?;
      case FB_CLEAR =>
        return true;
      case FB_LIVE_INPUTS => return false;
      case FB_LIVE_OUTPUT => return false;
    }

    /** getHashes: every bucket the future bucket holds or will need is among them. */
    method GetHashes() returns (hashes: seq<Hash>)
      requires Valid()
      ensures forall h :: h in hashes <==> h in HashesOf(Value())
      ensures curr.Some? ==> curr.value in hashes
      ensures snap.Some? ==> snap.value in hashes
      ensures output.Some? ==> output.value in hashes
      ensures forall b :: b in shadows ==> b in hashes
    {
      hashes := [];
      if currHash.Some? {
        hashes := hashes + [currHash.value];
      }
      if snapHash.Some? {
        hashes := hashes + [snapHash.value];
      }
      hashes := hashes + shadowHashes;
      if outputHash.Some? {
        hashes := hashes + [outputHash.value];
      }
    }
  }
}
