/** Garbage collection of buckets (src/bucket/BucketManagerImpl.cpp): what the list, the last closed ledger and the
    publish queue still need is never dropped. */
module References {
  import opened Buckets
  import opened BucketMergeMaps
  import opened BucketManagers
  import opened FutureBuckets

  /** A level of the list, or of the archive state of the last closed ledger. */
  datatype LiveLevel = LiveLevel(curr: Bucket, snap: Bucket, next: FutureBucket)

  /** The same level with the fields of its future. */
  datatype LevelFields = LevelFields(curr: Bucket, snap: Bucket, next: Fields)

  /** The buckets that the levels hold, and those that their futures hold or will need. */
  function AllHashes(levels: seq<LevelFields>): (r: set<Hash>)
    ensures forall i :: 0 <= i < |levels| ==>
              levels[i].curr in r && levels[i].snap in r && HashesOf(levels[i].next) <= r
  {
    if levels == [] then {}
    else
      var level := levels[|levels| - 1];
      AllHashes(levels[..|levels| - 1]) + {level.curr, level.snap} + HashesOf(level.next)
  }

  lemma {:induction false} AllHashesIff(levels: seq<LevelFields>, h: Hash)
    ensures h in AllHashes(levels) <==>
              exists i :: 0 <= i < |levels| && (h == levels[i].curr || h == levels[i].snap
                                                || h in HashesOf(levels[i].next))
  {
    if levels != [] {
      AllHashesIff(levels[..|levels| - 1], h);
    }
  }

  /** The objects have these fields, and are in a state that checkState accepts. */
  ghost predicate Represents(levels: seq<LiveLevel>, fields: seq<LevelFields>)
    reads set level | level in levels :: level.next
  {
    && |levels| == |fields|
    && forall i :: 0 <= i < |levels| ==>
         && levels[i].next.Valid()
         && fields[i] == LevelFields(levels[i].curr, levels[i].snap, levels[i].next.Value())
  }

  /** allBuckets. */
  method AllBuckets(levels: seq<LiveLevel>, ghost fields: seq<LevelFields>) returns (buckets: set<Hash>)
    requires Represents(levels, fields)
    ensures buckets == AllHashes(fields)
  {
    buckets := {};
    for i := 0 to |levels|
      invariant buckets == AllHashes(fields[..i])
    {
      var hashes := levels[i].next.GetHashes();
      assert HashesOf(fields[i].next) == set h | h in hashes;
      assert fields[..i + 1][..i] == fields[..i];
      buckets := buckets + {levels[i].curr, levels[i].snap} + set h | h in hashes;
    }
    assert fields[..|levels|] == fields;
  }

  method GetReferencedBuckets(bm: BucketManager, list: seq<LiveLevel>, lcl: seq<LiveLevel>, queue: seq<Hash>,
                              ghost inList: seq<LevelFields>, ghost inLedger: seq<LevelFields>)
      returns (referenced: set<Hash>)
    requires bm.Valid() && Represents(list, inList) && Represents(lcl, inLedger)
    ensures referenced == Referenced(bm.finished.records, AllHashes(inList) + AllHashes(inLedger), queue)
  {
    var listed := AllBuckets(list, inList);
    var closed := AllBuckets(lcl, inLedger);
    referenced := bm.ProjectQueue(listed + closed, queue);
  }

  lemma AvailableAlike(before: set<Hash>, after: set<Hash>, f: Fields)
    requires f.CheckState() && after <= before
    requires HashesOf(f) * before <= after
    ensures Available(after, f) <==> Available(before, f)
  {
    forall i | 0 <= i < |f.shadowHashes|
      ensures Stored(after, f.shadowHashes[i]) == Stored(before, f.shadowHashes[i])
    {
      assert f.shadowHashes[i] in HashesOf(f);
    }
  }

  /** A collection does not touch this level: each of its buckets stays in memory and on disk if it was there, and its
      future can be made live exactly if it could before. */
  ghost predicate Untouched(level: LevelFields, shared: set<Hash>, files: set<Hash>, shared': set<Hash>,
                            files': set<Hash>)
    requires level.next.CheckState()
  {
    && (forall h :: h in {level.curr, level.snap} + HashesOf(level.next) ==>
          (h in shared' <==> h in shared) && (h in files' <==> h in files))
    && (Available(files', level.next) <==> Available(files, level.next))
  }

  lemma CollectionKeeps(records: seq<MergeRecord>, base: set<Hash>, queue: seq<Hash>, pinned: set<Hash>,
                        shared: set<Hash>, files: set<Hash>, levels: seq<LevelFields>, i: nat)
    requires i < |levels| && levels[i].next.CheckState() && AllHashes(levels) <= base
    ensures var shared' := shared * (Referenced(records, base, queue) + pinned);
            Untouched(levels[i], shared, files, shared', files - (shared - shared'))
  {
    var level := levels[i];
    var shared' := shared * (Referenced(records, base, queue) + pinned);
    var files' := files - (shared - shared');
    forall h ensures h in base ==> h in Referenced(records, base, queue) {
      ReferencedIff(records, base, queue, h);
    }
    AvailableAlike(files, files', level.next);
  }

  /** forgetUnreferencedBuckets; `pinned` are the buckets that somebody else still holds. */
  method ForgetUnreferencedBuckets(bm: BucketManager, list: seq<LiveLevel>, lcl: seq<LiveLevel>, queue: seq<Hash>,
                                   pinned: set<Hash>, ghost inList: seq<LevelFields>, ghost inLedger: seq<LevelFields>)
    requires bm.Valid() && Represents(list, inList) && Represents(lcl, inLedger)
    modifies bm`shared, bm`files, bm`live, bm.finished
    ensures bm.Valid() && bm.live == old(bm.live)
    ensures bm.shared == old(bm.shared) *
              (Referenced(old(bm.finished.records), AllHashes(inList) + AllHashes(inLedger), queue) + pinned)
    ensures bm.files == old(bm.files) - (old(bm.shared) - bm.shared)
    ensures forall r :: r in bm.finished.records <==> r in old(bm.finished.records) && r.output in bm.shared
    ensures forall i :: 0 <= i < |list| ==> Untouched(inList[i], old(bm.shared), old(bm.files), bm.shared, bm.files)
    ensures forall i :: 0 <= i < |lcl| ==> Untouched(inLedger[i], old(bm.shared), old(bm.files), bm.shared, bm.files)
    ensures forall h :: h in queue ==>
              (h in bm.shared <==> h in old(bm.shared)) && (h in bm.files <==> h in old(bm.files))
  {
    ghost var records, base := bm.finished.records, AllHashes(inList) + AllHashes(inLedger);
    var referenced := GetReferencedBuckets(bm, list, lcl, queue, inList, inLedger);
    forall i | 0 <= i < |list| {
      CollectionKeeps(records, base, queue, pinned, bm.shared, bm.files, inList, i);
    }
    forall i | 0 <= i < |lcl| {
      CollectionKeeps(records, base, queue, pinned, bm.shared, bm.files, inLedger, i);
    }
    forall h | h in queue ensures h in referenced {
      ReferencedIff(records, base, queue, h);
    }
    bm.Sweep(referenced, pinned);
  }
}
