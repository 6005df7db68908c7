/** Which merges produced which buckets (src/bucket/BucketMergeMap.cpp, src/bucket/MergeKey.cpp). The hash of
    a bucket is represented by the bucket it was computed from. */
module BucketMergeMaps {
  import opened Wrappers
  import opened Buckets

  type Hash = Bucket

  datatype MergeKey = MergeKey(keepDead: bool, curr: Hash, snap: Hash, shadows: seq<Hash>)

  /** getMergeKeyHashes: the distinct inputs of a merge. */
  function Hashes(key: MergeKey): (r: set<Hash>) {
    {key.curr, key.snap} + set h | h in key.shadows
  }

  datatype MergeRecord = MergeRecord(key: MergeKey, output: Hash)

  // ----- the maps that a sequence of recorded merges gives

  function OutputPairs(s: seq<MergeRecord>): (r: multiset<(Hash, MergeKey)>) {
    if s == [] then multiset{} else OutputPairs(s[1..]) + multiset{(s[0].output, s[0].key)}
  }

  function PairsOf(m: MergeRecord): (r: multiset<(Hash, Hash)>) {
    multiset(set h | h in Hashes(m.key) :: (h, m.output))
  }

  function InputPairs(s: seq<MergeRecord>): (r: multiset<(Hash, Hash)>) {
    if s == [] then multiset{} else InputPairs(s[1..]) + PairsOf(s[0])
  }

  function Without(s: seq<MergeRecord>, output: Hash): (r: seq<MergeRecord>)
    ensures forall i :: 0 <= i < |r| ==> r[i].output != output
  {
    if s == [] then []
    else if s[0].output == output then Without(s[1..], output)
    else [s[0]] + Without(s[1..], output)
  }

  /** How many recorded merges with this output use this input. */
  function Uses(s: seq<MergeRecord>, input: Hash, output: Hash): (r: nat) {
    if s == [] then 0
    else Uses(s[1..], input, output) + if s[0].output == output && input in Hashes(s[0].key) then 1 else 0
  }

  function Producing(s: seq<MergeRecord>, key: MergeKey, output: Hash): (r: nat) {
    if s == [] then 0
    else Producing(s[1..], key, output) + if s[0] == MergeRecord(key, output) then 1 else 0
  }

  /** The multiplicities of the two multimaps count the same recorded merges. */
  lemma {:induction false} Multiplicities(s: seq<MergeRecord>, input: Hash, output: Hash, key: MergeKey)
    ensures InputPairs(s)[(input, output)] == Uses(s, input, output)
    ensures OutputPairs(s)[(output, key)] == Producing(s, key, output)
  {
    if s != [] {
      Multiplicities(s[1..], input, output, key);
      PairsCount(s[0], input, output);
    }
  }

  lemma PairsCount(m: MergeRecord, input: Hash, output: Hash)
    ensures PairsOf(m)[(input, output)] == if m.output == output && input in Hashes(m.key) then 1 else 0
  {
    var ps := set h | h in Hashes(m.key) :: (h, m.output);
    assert (input, output) in ps <==> m.output == output && input in Hashes(m.key);
  }

  /** Forgetting an output removes all its traces and none of any other output. */
  lemma {:induction false} ForgettingIsExact(s: seq<MergeRecord>, output: Hash, input: Hash, other: Hash, key: MergeKey)
    ensures InputPairs(Without(s, output))[(input, output)] == 0
    ensures OutputPairs(Without(s, output))[(output, key)] == 0
    ensures other != output ==> InputPairs(Without(s, output))[(input, other)] == InputPairs(s)[(input, other)]
    ensures other != output ==> OutputPairs(Without(s, output))[(other, key)] == OutputPairs(s)[(other, key)]
  {
    if s != [] {
      ForgettingIsExact(s[1..], output, input, other, key);
      PairsCount(s[0], input, output);
      PairsCount(s[0], input, other);
      if s[0].output != output {
        assert Without(s, output)[1..] == Without(s[1..], output);
      }
    }
  }

  /** Dropping one recorded merge. */
  function Drop(s: seq<MergeRecord>, i: nat): (r: seq<MergeRecord>)
    requires i < |s|
  {
    s[..i] + s[i + 1..]
  }

  lemma DropPairs(s: seq<MergeRecord>, i: nat)
    requires i < |s|
    ensures InputPairs(s) == InputPairs(Drop(s, i)) + PairsOf(s[i])
    ensures OutputPairs(s) == OutputPairs(Drop(s, i)) + multiset{(s[i].output, s[i].key)}
    ensures Without(Drop(s, i), s[i].output) == Without(s, s[i].output)
  {
    DropInputPairs(s, i);
    DropOutputPairs(s, i);
    DropWithout(s, i);
  }

  lemma {:induction false} DropInputPairs(s: seq<MergeRecord>, i: nat)
    requires i < |s|
    ensures InputPairs(s) == InputPairs(Drop(s, i)) + PairsOf(s[i])
  {
    if i == 0 {
      assert Drop(s, 0) == s[1..];
    } else {
      DropInputPairs(s[1..], i - 1);
      DropLater(s, i);
    }
  }

  lemma {:induction false} DropOutputPairs(s: seq<MergeRecord>, i: nat)
    requires i < |s|
    ensures OutputPairs(s) == OutputPairs(Drop(s, i)) + multiset{(s[i].output, s[i].key)}
  {
    if i == 0 {
      assert Drop(s, 0) == s[1..];
    } else {
      DropOutputPairs(s[1..], i - 1);
      DropLater(s, i);
    }
  }

  lemma {:induction false} DropWithout(s: seq<MergeRecord>, i: nat)
    requires i < |s|
    ensures Without(Drop(s, i), s[i].output) == Without(s, s[i].output)
  {
    if i == 0 {
      assert Drop(s, 0) == s[1..];
    } else {
      DropWithout(s[1..], i - 1);
      DropLater(s, i);
    }
  }

  lemma DropLater(s: seq<MergeRecord>, i: nat)
    requires 0 < i < |s|
    ensures Drop(s, i) != [] && Drop(s, i)[0] == s[0] && Drop(s, i)[1..] == Drop(s[1..], i - 1)
  {
  }

  lemma {:induction false} RecordedIn(s: seq<MergeRecord>, output: Hash, key: MergeKey) returns (i: nat)
    requires (output, key) in OutputPairs(s)
    ensures i < |s| && s[i] == MergeRecord(key, output)
  {
    if s[0] == MergeRecord(key, output) {
      i := 0;
    } else {
      i := RecordedIn(s[1..], output, key);
      i := i + 1;
    }
  }

  lemma {:induction false} NoneProducing(s: seq<MergeRecord>, output: Hash)
    requires forall key :: (output, key) !in OutputPairs(s)
    ensures Without(s, output) == s
  {
    if s != [] {
      assert (output, s[0].key) !in OutputPairs(s);
      forall key ensures (output, key) !in OutputPairs(s[1..]) {
        assert (output, key) !in OutputPairs(s);
      }
      NoneProducing(s[1..], output);
    }
  }

  /** Every key was only ever recorded with one output. */
  ghost predicate Functional(history: set<MergeRecord>) {
    forall a, b :: a in history && b in history && a.key == b.key ==> a == b
  }

  /** The three maps. */
  datatype Maps = Maps(keyToOutput: map<MergeKey, Hash>, inputToOutput: multiset<(Hash, Hash)>,
                       outputToKey: multiset<(Hash, MergeKey)>)

  /** The multimaps are those of the recorded merges; and so is the map, if keys determine outputs. */
  ghost predicate Reflects(m: Maps, records: seq<MergeRecord>, history: set<MergeRecord>) {
    && m.inputToOutput == InputPairs(records)
    && m.outputToKey == OutputPairs(records)
    && AllIn(records, history)
    && (Functional(history) ==> Remembers(records, m.keyToOutput))
  }

  /** While the merges producing an output are being forgotten. */
  ghost predicate ReflectsExcept(m: Maps, records: seq<MergeRecord>, history: set<MergeRecord>, output: Hash) {
    && m.inputToOutput == InputPairs(records)
    && m.outputToKey == OutputPairs(records)
    && AllIn(records, history)
    && (Functional(history) ==> RemembersExcept(records, m.keyToOutput, output))
  }

  /** recordMerge: an entry of the first map is not overwritten, the multimaps always grow. */
  method Record(m: Maps, key: MergeKey, output: Hash, ghost records: seq<MergeRecord>, ghost history: set<MergeRecord>)
      returns (r: Maps)
    requires Reflects(m, records, history)
    ensures Reflects(r, [MergeRecord(key, output)] + records, history + {MergeRecord(key, output)})
  {
    RecordedRemembers(records, history, m.keyToOutput, MergeRecord(key, output));
    var keyToOutput := if key in m.keyToOutput then m.keyToOutput else m.keyToOutput[key := output];
    var inputToOutput := RetainInputs(m.inputToOutput, key, output);
    r := Maps(keyToOutput, inputToOutput, m.outputToKey + multiset{(output, key)});
    assert ([MergeRecord(key, output)] + records)[1..] == records;
  }

  /** The loop body of forgetAllMergesProducing: forgets one merge producing the output. */
  method ForgetOne(m: Maps, key: MergeKey, output: Hash, ghost records: seq<MergeRecord>,
                   ghost history: set<MergeRecord>)
      returns (r: Maps, ghost rest: seq<MergeRecord>)
    requires ReflectsExcept(m, records, history, output) && (output, key) in m.outputToKey
    ensures ReflectsExcept(r, rest, history, output) && |rest| < |records|
    ensures Without(rest, output) == Without(records, output)
    ensures MergeRecord(key, output) in records && Kept(records, rest, MergeRecord(key, output), history)
  {
    ghost var i := RecordedIn(records, output, key);
    rest := Drop(records, i);
    ForgetStep(records, history, m.keyToOutput, i);
    var inputToOutput := ReleaseInputs(m.inputToOutput, key, output);
    r := Maps(m.keyToOutput - {key}, inputToOutput, m.outputToKey - multiset{(output, key)});
  }

  /** forgetAllMergesProducing: exactly the merges with this output are forgotten, and their keys returned. */
  method ForgetAll(m: Maps, output: Hash, ghost records: seq<MergeRecord>, ghost history: set<MergeRecord>)
      returns (r: Maps, forgotten: set<MergeKey>)
    requires Reflects(m, records, history)
    ensures Reflects(r, Without(records, output), history)
    ensures forall key :: key in forgotten <==> MergeRecord(key, output) in records
  {
    r, forgotten := m, {};
    ghost var rest := records;
    while exists p :: p in r.outputToKey && p.0 == output
      invariant ReflectsExcept(r, rest, history, output)
      invariant Without(rest, output) == Without(records, output)
      invariant forall x :: x in rest ==> x in records
      invariant forall key :: key in forgotten ==> MergeRecord(key, output) in records
      invariant forall key :: MergeRecord(key, output) in records ==>
                  key in forgotten || MergeRecord(key, output) in rest
      decreases |rest|
    {
      var p :| p in r.outputToKey && p.0 == output;
      r, rest := ForgetOne(r, p.1, output, rest, history);
      forgotten := forgotten + {p.1};
    }
    AllForgotten(r, rest, output);
  }

  lemma AllForgotten(m: Maps, rest: seq<MergeRecord>, output: Hash)
    requires m.outputToKey == OutputPairs(rest) && !exists p :: p in m.outputToKey && p.0 == output
    ensures Without(rest, output) == rest
    ensures forall key :: MergeRecord(key, output) !in rest
  {
    forall key ensures (output, key) !in OutputPairs(rest) {
      assert (output, key).0 == output;
    }
    NoneProducing(rest, output);
  }

  class BucketMergeMap {
    var maps: Maps
    /** The recorded merges not yet forgotten, and all ever recorded. */
    ghost var records: seq<MergeRecord>
    ghost var history: set<MergeRecord>

    ghost predicate Valid()
      reads this
    {
      Reflects(maps, records, history)
    }

    constructor ()
      ensures Valid() && records == [] && history == {}
    {
      maps := Maps(map[], multiset{}, multiset{});
      records, history := [], {};
    }

    method RecordMerge(key: MergeKey, output: Hash)
      requires Valid()
      modifies this
      ensures Valid() && records == [MergeRecord(key, output)] + old(records)
              && history == old(history) + {MergeRecord(key, output)}
    {
      var m := Record(maps, key, output, records, history);
      maps, records, history := m, [MergeRecord(key, output)] + records, history + {MergeRecord(key, output)};
    }

    method ForgetAllMergesProducing(output: Hash) returns (forgotten: set<MergeKey>)
      requires Valid()
      modifies this
      ensures Valid() && history == old(history) && records == Without(old(records), output)
      ensures forall key :: key in forgotten <==> MergeRecord(key, output) in old(records)
    {
      var m;
      m, forgotten := ForgetAll(maps, output, records, history);
      maps, records := m, Without(records, output);
    }

    /** findMergeFor: for keys that only ever have one output, that output while it is remembered. */
    method FindMergeFor(key: MergeKey) returns (output: Option<Hash>)
      requires Valid()
      ensures Functional(history) ==> forall h :: output == Some(h) <==> MergeRecord(key, h) in records
    {
      if key in maps.keyToOutput {
        return Some(maps.keyToOutput[key]);
      }
      return None;
    }

    /** getOutputsUsingInput: the outputs of the remembered merges that use this input. */
    method GetOutputsUsingInput(input: Hash) returns (outputs: set<Hash>)
      requires Valid()
      ensures forall h :: h in outputs <==> Uses(records, input, h) > 0
    {
      outputs := set p | p in maps.inputToOutput && p.0 == input :: p.1;
      forall h ensures h in outputs <==> Uses(records, input, h) > 0 {
        Multiplicities(records, input, h, MergeKey(false, input, input, []));
        assert h in outputs <==> (input, h) in maps.inputToOutput;
      }
    }
  }

  /** The same as Remembers, but for the merges with one output. */
  ghost predicate RemembersExcept(records: seq<MergeRecord>, keyToOutput: map<MergeKey, Hash>, output: Hash) {
    && (forall i :: 0 <= i < |records| && records[i].output != output ==>
          records[i].key in keyToOutput && keyToOutput[records[i].key] == records[i].output)
    && (forall key :: key in keyToOutput ==> MergeRecord(key, keyToOutput[key]) in records)
  }

  /** Adds a pair for each distinct input of the merge. */
  method RetainInputs(pairs: multiset<(Hash, Hash)>, key: MergeKey, output: Hash) returns (r: multiset<(Hash, Hash)>)
    ensures r == pairs + PairsOf(MergeRecord(key, output))
  {
    r := pairs;
    var todo := Hashes(key);
    while todo != {}
      invariant r + multiset(set h | h in todo :: (h, output)) == pairs + PairsOf(MergeRecord(key, output))
      decreases |todo|
    {
      var h :| h in todo;
      RemoveOne(todo, h, output);
      r := r + multiset{(h, output)};
      todo := todo - {h};
    }
  }

  /** Removes one pair for each distinct input of the merge, where there is one. */
  method ReleaseInputs(pairs: multiset<(Hash, Hash)>, key: MergeKey, output: Hash) returns (r: multiset<(Hash, Hash)>)
    ensures r == pairs - PairsOf(MergeRecord(key, output))
  {
    r := pairs;
    var todo := Hashes(key);
    while todo != {}
      invariant r - multiset(set h | h in todo :: (h, output)) == pairs - PairsOf(MergeRecord(key, output))
      decreases |todo|
    {
      var h :| h in todo;
      RemoveOne(todo, h, output);
      if (h, output) in r {
        r := r - multiset{(h, output)};
      }
      todo := todo - {h};
    }
  }

  /** What is left when one recorded merge is dropped. */
  lemma ForgetStep(records: seq<MergeRecord>, history: set<MergeRecord>, keyToOutput: map<MergeKey, Hash>, i: nat)
    requires i < |records| && AllIn(records, history)
    requires Functional(history) ==> RemembersExcept(records, keyToOutput, records[i].output)
    ensures PairsOf(records[i]) <= InputPairs(records)
    ensures InputPairs(records) - PairsOf(records[i]) == InputPairs(Drop(records, i))
    ensures OutputPairs(records) - multiset{(records[i].output, records[i].key)} == OutputPairs(Drop(records, i))
    ensures Without(Drop(records, i), records[i].output) == Without(records, records[i].output)
    ensures Kept(records, Drop(records, i), records[i], history)
    ensures Functional(history) ==> RemembersExcept(Drop(records, i), keyToOutput - {records[i].key}, records[i].output)
  {
    DropPairs(records, i);
    DroppedRemembers(records, history, keyToOutput, i);
  }

  ghost predicate AllIn(records: seq<MergeRecord>, history: set<MergeRecord>) {
    forall i :: 0 <= i < |records| ==> records[i] in history
  }

  /** Only occurrences of one merge are gone. */
  ghost predicate Kept(before: seq<MergeRecord>, after: seq<MergeRecord>, dropped: MergeRecord,
                       history: set<MergeRecord>) {
    && (forall m :: m in before && m != dropped ==> m in after)
    && (forall m :: m in after ==> m in before)
    && AllIn(after, history)
  }

  lemma DroppedRemembers(records: seq<MergeRecord>, history: set<MergeRecord>, keyToOutput: map<MergeKey, Hash>, i: nat)
    requires i < |records| && AllIn(records, history)
    ensures Kept(records, Drop(records, i), records[i], history)
    ensures Functional(history) && RemembersExcept(records, keyToOutput, records[i].output) ==>
              RemembersExcept(Drop(records, i), keyToOutput - {records[i].key}, records[i].output)
  {
    var s := Drop(records, i);
    forall m | m in records && m != records[i] ensures m in s {
      var j :| 0 <= j < |records| && records[j] == m;
      assert m == if j < i then s[j] else s[j - 1];
    }
    forall j | 0 <= j < |s| ensures s[j] in records {
      assert s[j] == records[if j < i then j else j + 1];
    }
  }

  /** The map from keys to outputs holds exactly the recorded merges. */
  ghost predicate Remembers(records: seq<MergeRecord>, keyToOutput: map<MergeKey, Hash>) {
    && (forall i :: 0 <= i < |records| ==>
          records[i].key in keyToOutput && keyToOutput[records[i].key] == records[i].output)
    && (forall key :: key in keyToOutput ==> MergeRecord(key, keyToOutput[key]) in records)
  }

  lemma RemoveOne(todo: set<Hash>, h: Hash, output: Hash)
    requires h in todo
    ensures multiset(set x | x in todo :: (x, output)) ==
              multiset(set x | x in todo - {h} :: (x, output)) + multiset{(h, output)}
  {
    var a, b := set x | x in todo :: (x, output), set x | x in todo - {h} :: (x, output);
    assert a == b + {(h, output)};
    assert (h, output) !in b;
  }

  lemma RecordedRemembers(records: seq<MergeRecord>, history: set<MergeRecord>, keyToOutput: map<MergeKey, Hash>,
                          m: MergeRecord)
    requires Functional(history) ==> Remembers(records, keyToOutput)
    requires AllIn(records, history)
    ensures Functional(history + {m}) ==>
              Remembers([m] + records, if m.key in keyToOutput then keyToOutput else keyToOutput[m.key := m.output])
  {
    if Functional(history + {m}) {
      assert Functional(history);
      if m.key in keyToOutput {
        assert MergeRecord(m.key, keyToOutput[m.key]) in records;
      }
    }
  }
}
